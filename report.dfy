/** The whole run of `Main` (Program.cs) on a ledger already read from its JSON file: the
    period check, the sanity check, the pool segmentation, the flattened leads and the pools
    with their leads filled in. */
module Report {
  import opened Ledger
  import opened Pools
  import opened Membership
  import opened Segmentation
  import opened TeamView
  import opened Timeline
  import opened SanityCheck
  import opened Flattening
  import opened Assignment

  /** What a run produces: the error that stops it, or the warnings, pools and leads it prints. */
  datatype Outcome =
    | Stopped(message: string)
    | Finished(warnings: seq<Warning>, pools: seq<Pool>, leads: seq<Lead>)

  /** `Main` after the input is read. A period whose end is not after its start stops the run;
      otherwise every lead of the period is held by exactly one pool when its team already has
      a pool on or before the lead's day, in particular whenever the team has members that day,
      and by none otherwise; every in-period amount of the admitted assignments
      yields exactly one lead, and the pools' revenue and lead count together with the leads no
      pool holds make up the revenue and number of all the leads. */
  method Run(ledger: seq<Resource>, start: int, end: int) returns (outcome: Outcome)
    requires start < end ==> WindowsValid(ledger)
    ensures end <= start <==> outcome.Stopped?
    ensures outcome.Finished? ==>
              outcome.warnings == Warnings(ledger) &&
              outcome.leads == Flatten(ledger, start, end) &&
              outcome.pools == Assigned(Segment(ledger, start, end), outcome.leads) &&
              |outcome.leads| == LedgerAmounts(ledger, start, end) &&
              RevenueSum(outcome.leads) == LedgerRevenue(ledger, start, end) &&
              forall l :: multiset(outcome.leads)[l] == LedgerOccurrences(l, ledger, start, end)
    ensures outcome.Finished? ==>
              forall l :: l in outcome.leads ==>
                var tp := TeamPools(Segment(ledger, start, end), l.teamName);
                PoolsHolding(outcome.pools, l) == (if tp != [] && tp[0].firstDay <= l.date then 1 else 0) &&
                (Members(ledger, l.teamName, l.date) != [] ==> PoolsHolding(outcome.pools, l) == 1)
    ensures outcome.Finished? ==>
              var unpooled := Unpooled(outcome.leads, Segment(ledger, start, end));
              PoolsRevenue(outcome.pools) + RevenueSum(unpooled) == RevenueSum(outcome.leads) &&
              PoolsLeadCount(outcome.pools) + |unpooled| == |outcome.leads|
  {
    if end <= start {
      return Stopped("Start date must be before end date.");
    }
    var warnings := CheckLedger(ledger);
    var segments := BuildPools(ledger, start, end);
    var leads := Flatten(ledger, start, end);
    var pools := AssignLeads(segments, leads);
    forall l | l in leads
      ensures var tp := TeamPools(segments, l.teamName);
              PoolsHolding(pools, l) == (if tp != [] && tp[0].firstDay <= l.date then 1 else 0) &&
              (Members(ledger, l.teamName, l.date) != [] ==> PoolsHolding(pools, l) == 1)
      ensures PoolsCovering(segments, l.teamName, l.date) <= 1
    {
      HoldingIsCovering(segments, leads, l);
      SegmentCoversEachDayOnce(ledger, start, end, l.teamName, l.date);
    }
    RevenueConserved(segments, leads);
    FlattenTotals(ledger, start, end);
    forall l ensures multiset(leads)[l] == LedgerOccurrences(l, ledger, start, end) {
      FlattenOccurrences(l, ledger, start, end);
    }
    return Finished(warnings, pools, leads);
  }
}
