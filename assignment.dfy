/** Sorting the leads into pools (Program.cs, the final loop over `pools`): each pool receives,
    in their original order, the leads of its team dated within its range. */
module Assignment {
  import opened Pools
  import opened Timeline

  /** The pool's team and range contain the lead. */
  predicate Covers(pool: Pool, lead: Lead)
  {
    lead.teamName == pool.teamName && pool.firstDay <= lead.date <= pool.lastDay
  }

  /** `leads.Where(l => l.TeamName == pool.TeamName && l.Date >= pool.FirstDay && l.Date <= pool.LastDay)`. */
  function LeadsIn(leads: seq<Lead>, pool: Pool): (selected: seq<Lead>)
    ensures |selected| <= |leads|
    ensures forall l :: l in selected <==> l in leads && Covers(pool, l)
  {
    if leads == [] then []
    else
      var n := |leads|;
      LeadsIn(leads[..n - 1], pool) + (if Covers(pool, leads[n - 1]) then [leads[n - 1]] else [])
  }

  /** Every pool with its leads filled in. */
  function Assigned(pools: seq<Pool>, leads: seq<Lead>): (filled: seq<Pool>)
    ensures |filled| == |pools|
    ensures forall i :: 0 <= i < |pools| ==> filled[i] == pools[i].(leads := LeadsIn(leads, pools[i]))
  {
    if pools == [] then []
    else
      var n := |pools|;
      Assigned(pools[..n - 1], leads) + [pools[n - 1].(leads := LeadsIn(leads, pools[n - 1]))]
  }

  /** The loop writing each pool's leads. */
  method AssignLeads(pools: seq<Pool>, leads: seq<Lead>) returns (filled: seq<Pool>)
    ensures filled == Assigned(pools, leads)
  {
    filled := [];
    var i := 0;
    while i < |pools|
      invariant 0 <= i <= |pools|
      invariant filled == Assigned(pools[..i], leads)
    {
      var pool := pools[i];
      filled := filled + [pool.(leads := LeadsIn(leads, pool))];
      assert pools[..i + 1][..i] == pools[..i];
      i := i + 1;
    }
    assert pools[..i] == pools;
  }

  /** The number of pools that hold the lead. */
  function PoolsHolding(pools: seq<Pool>, lead: Lead): (n: nat)
    ensures n == 0 <==> forall i :: 0 <= i < |pools| ==> lead !in pools[i].leads
  {
    if pools == [] then 0
    else
      var init := pools[..|pools| - 1];
      assert forall i :: 0 <= i < |init| ==> init[i] == pools[i];
      PoolsHolding(init, lead) + (if lead in pools[|pools| - 1].leads then 1 else 0)
  }

  /** Sum of the pools' TotalRevenue. */
  function PoolsRevenue(pools: seq<Pool>): int
  {
    if pools == [] then 0 else PoolsRevenue(pools[..|pools| - 1]) + TotalRevenue(pools[|pools| - 1])
  }

  /** Sum of the pools' TotalLeads. */
  function PoolsLeadCount(pools: seq<Pool>): int
  {
    if pools == [] then 0 else PoolsLeadCount(pools[..|pools| - 1]) + TotalLeads(pools[|pools| - 1])
  }

  /** The leads no pool covers. */
  function Unpooled(leads: seq<Lead>, pools: seq<Pool>): (rest: seq<Lead>)
    ensures forall l :: l in rest <==> l in leads && PoolsCovering(pools, l.teamName, l.date) == 0
  {
    if leads == [] then []
    else
      var n := |leads|;
      var l := leads[n - 1];
      Unpooled(leads[..n - 1], pools) + (if PoolsCovering(pools, l.teamName, l.date) == 0 then [l] else [])
  }

  /** `amount` added up `count` times. */
  function Times(amount: int, count: nat): int
  {
    if count == 0 then 0 else Times(amount, count - 1) + amount
  }

  /** Each lead's revenue weighted by the number of pools covering it. */
  function WeightedRevenue(leads: seq<Lead>, pools: seq<Pool>): int
  {
    if leads == [] then 0
    else
      var n := |leads|;
      var l := leads[n - 1];
      WeightedRevenue(leads[..n - 1], pools) + Times(l.revenue, PoolsCovering(pools, l.teamName, l.date))
  }

  /** Each lead's count weighted by the number of pools covering it. */
  function WeightedCount(leads: seq<Lead>, pools: seq<Pool>): int
  {
    if leads == [] then 0
    else
      var n := |leads|;
      var l := leads[n - 1];
      WeightedCount(leads[..n - 1], pools) + PoolsCovering(pools, l.teamName, l.date)
  }

  /** A lead of the list is held by as many pools as cover it. */
  lemma {:induction false} HoldingIsCovering(pools: seq<Pool>, leads: seq<Lead>, lead: Lead)
    requires lead in leads
    ensures PoolsHolding(Assigned(pools, leads), lead) == PoolsCovering(pools, lead.teamName, lead.date)
  {
    if pools != [] {
      var n := |pools|;
      var filled := Assigned(pools, leads);
      assert filled[..n - 1] == Assigned(pools[..n - 1], leads);
      HoldingIsCovering(pools[..n - 1], leads, lead);
    }
  }

  lemma LeadsInAppend(leads: seq<Lead>, l: Lead, pool: Pool)
    ensures LeadsIn(leads + [l], pool) == LeadsIn(leads, pool) + (if Covers(pool, l) then [l] else [])
  {
    assert (leads + [l])[..|leads|] == leads;
  }

  /** Adding one lead to the list adds its revenue once for every pool covering it. */
  lemma {:induction false} OneMoreLeadRevenue(pools: seq<Pool>, leads: seq<Lead>, l: Lead)
    ensures PoolsRevenue(Assigned(pools, leads + [l])) ==
            PoolsRevenue(Assigned(pools, leads)) + Times(l.revenue, PoolsCovering(pools, l.teamName, l.date))
  {
    if pools != [] {
      OneMoreLeadRevenue(pools[..|pools| - 1], leads, l);
      LastPoolRevenueStep(pools, leads, l);
      LastPoolTimesStep(pools, l);
    }
  }

  /** The last pool's share of the change one more lead makes to the pools' revenue. */
  lemma LastPoolRevenueStep(pools: seq<Pool>, leads: seq<Lead>, l: Lead)
    requires pools != []
    ensures PoolsRevenue(Assigned(pools, leads + [l])) - PoolsRevenue(Assigned(pools, leads)) ==
            PoolsRevenue(Assigned(pools[..|pools| - 1], leads + [l])) - PoolsRevenue(Assigned(pools[..|pools| - 1], leads)) +
            (if Covers(pools[|pools| - 1], l) then l.revenue else 0)
  {
    PoolsRevenueLast(pools, leads + [l]);
    PoolsRevenueLast(pools, leads);
    LastPoolRevenue(pools[|pools| - 1], leads, l);
  }

  /** The last pool's share of the lead's revenue weighted by the pools covering it. */
  lemma LastPoolTimesStep(pools: seq<Pool>, l: Lead)
    requires pools != []
    ensures Times(l.revenue, PoolsCovering(pools, l.teamName, l.date)) ==
            Times(l.revenue, PoolsCovering(pools[..|pools| - 1], l.teamName, l.date)) +
            (if Covers(pools[|pools| - 1], l) then l.revenue else 0)
  {
    var c := PoolsCovering(pools[..|pools| - 1], l.teamName, l.date);
    if Covers(pools[|pools| - 1], l) {
      assert PoolsCovering(pools, l.teamName, l.date) == c + 1;
    } else {
      assert PoolsCovering(pools, l.teamName, l.date) == c;
    }
  }

  /** Splits the revenue of the filled pools into that of all but the last and that of the last. */
  lemma PoolsRevenueLast(pools: seq<Pool>, leads: seq<Lead>)
    requires pools != []
    ensures PoolsRevenue(Assigned(pools, leads)) ==
            PoolsRevenue(Assigned(pools[..|pools| - 1], leads)) +
            RevenueSum(LeadsIn(leads, pools[|pools| - 1]))
  {
    var n := |pools|;
    var filled := Assigned(pools, leads);
    assert filled[..n - 1] == Assigned(pools[..n - 1], leads);
  }

  /** One more lead changes a pool's revenue by the lead's revenue exactly when the pool covers it. */
  lemma LastPoolRevenue(p: Pool, leads: seq<Lead>, l: Lead)
    ensures RevenueSum(LeadsIn(leads + [l], p)) ==
            RevenueSum(LeadsIn(leads, p)) + (if Covers(p, l) then l.revenue else 0)
  {
    var extra := if Covers(p, l) then [l] else [];
    LeadsInAppend(leads, l, p);
    RevenueSumAppend(LeadsIn(leads, p), extra);
    assert RevenueSum(extra) == if Covers(p, l) then l.revenue else 0;
  }

  /** Adding one lead to the list adds one to the lead count of every pool covering it. */
  lemma {:induction false} OneMoreLeadCount(pools: seq<Pool>, leads: seq<Lead>, l: Lead)
    ensures PoolsLeadCount(Assigned(pools, leads + [l])) ==
            PoolsLeadCount(Assigned(pools, leads)) + PoolsCovering(pools, l.teamName, l.date)
  {
    if pools != [] {
      OneMoreLeadCount(pools[..|pools| - 1], leads, l);
      LastPoolCountStep(pools, leads, l);
      PoolsCoveringLast(pools, l);
    }
  }

  /** The last pool's share of the change one more lead makes to the pools' lead count. */
  lemma LastPoolCountStep(pools: seq<Pool>, leads: seq<Lead>, l: Lead)
    requires pools != []
    ensures PoolsLeadCount(Assigned(pools, leads + [l])) - PoolsLeadCount(Assigned(pools, leads)) ==
            PoolsLeadCount(Assigned(pools[..|pools| - 1], leads + [l])) -
            PoolsLeadCount(Assigned(pools[..|pools| - 1], leads)) +
            (if Covers(pools[|pools| - 1], l) then 1 else 0)
  {
    var n := |pools|;
    var p := pools[n - 1];
    LeadsInAppend(leads, l, p);
    var after := Assigned(pools, leads + [l]);
    var before := Assigned(pools, leads);
    assert after[..n - 1] == Assigned(pools[..n - 1], leads + [l]);
    assert before[..n - 1] == Assigned(pools[..n - 1], leads);
  }

  lemma PoolsCoveringLast(pools: seq<Pool>, l: Lead)
    requires pools != []
    ensures PoolsCovering(pools, l.teamName, l.date) ==
            PoolsCovering(pools[..|pools| - 1], l.teamName, l.date) + (if Covers(pools[|pools| - 1], l) then 1 else 0)
  {
  }

  /** The pools' revenue (and lead count) is every lead's revenue (and count) taken once per
      covering pool. */
  lemma {:induction false} RevenueByCoverage(pools: seq<Pool>, leads: seq<Lead>)
    ensures PoolsRevenue(Assigned(pools, leads)) == WeightedRevenue(leads, pools)
    ensures PoolsLeadCount(Assigned(pools, leads)) == WeightedCount(leads, pools)
  {
    if leads == [] {
      AssignedNothing(pools);
    } else {
      var n := |leads|;
      RevenueByCoverage(pools, leads[..n - 1]);
      assert leads == leads[..n - 1] + [leads[n - 1]];
      OneMoreLeadRevenue(pools, leads[..n - 1], leads[n - 1]);
      OneMoreLeadCount(pools, leads[..n - 1], leads[n - 1]);
    }
  }

  lemma {:induction false} AssignedNothing(pools: seq<Pool>)
    ensures PoolsRevenue(Assigned(pools, [])) == 0 && PoolsLeadCount(Assigned(pools, [])) == 0
  {
    if pools != [] {
      var n := |pools|;
      AssignedNothing(pools[..n - 1]);
      assert Assigned(pools, [])[..n - 1] == Assigned(pools[..n - 1], []);
    }
  }

  /** When no lead is covered by more than one pool, the pools' revenue plus the revenue of the
      leads no pool covers is the revenue of all leads, and likewise for the number of leads. */
  lemma {:induction false} RevenueConserved(pools: seq<Pool>, leads: seq<Lead>)
    requires forall l :: l in leads ==> PoolsCovering(pools, l.teamName, l.date) <= 1
    ensures PoolsRevenue(Assigned(pools, leads)) + RevenueSum(Unpooled(leads, pools)) == RevenueSum(leads)
    ensures PoolsLeadCount(Assigned(pools, leads)) + |Unpooled(leads, pools)| == |leads|
  {
    RevenueByCoverage(pools, leads);
    WeightsSplit(pools, leads);
  }

  lemma {:induction false} WeightsSplit(pools: seq<Pool>, leads: seq<Lead>)
    requires forall l :: l in leads ==> PoolsCovering(pools, l.teamName, l.date) <= 1
    ensures WeightedRevenue(leads, pools) + RevenueSum(Unpooled(leads, pools)) == RevenueSum(leads)
    ensures WeightedCount(leads, pools) + |Unpooled(leads, pools)| == |leads|
  {
    if leads != [] {
      var n := |leads|;
      assert forall x :: x in leads[..n - 1] ==> x in leads;
      WeightsSplit(pools, leads[..n - 1]);
      LastLeadSplit(pools, leads);
    }
  }

  /** A lead covered at most once is counted either in a pool or among the unpooled leads. */
  lemma LastLeadSplit(pools: seq<Pool>, leads: seq<Lead>)
    requires leads != []
    requires PoolsCovering(pools, leads[|leads| - 1].teamName, leads[|leads| - 1].date) <= 1
    ensures var n := |leads|;
            var init := leads[..n - 1];
            var l := leads[n - 1];
            WeightedRevenue(leads, pools) + RevenueSum(Unpooled(leads, pools)) ==
            WeightedRevenue(init, pools) + RevenueSum(Unpooled(init, pools)) + l.revenue &&
            RevenueSum(leads) == RevenueSum(init) + l.revenue &&
            WeightedCount(leads, pools) + |Unpooled(leads, pools)| ==
            WeightedCount(init, pools) + |Unpooled(init, pools)| + 1
  {
    var n := |leads|;
    var l := leads[n - 1];
    var c := PoolsCovering(pools, l.teamName, l.date);
    UnpooledRevenueStep(pools, leads);
    if c == 0 {
      assert Times(l.revenue, c) == 0;
    } else {
      assert Times(l.revenue, c) == l.revenue by {
        assert Times(l.revenue, c - 1) == 0;
      }
    }
  }

  /** The last lead's revenue joins the unpooled leads' exactly when no pool covers it. */
  lemma UnpooledRevenueStep(pools: seq<Pool>, leads: seq<Lead>)
    requires leads != []
    ensures var n := |leads|;
            var l := leads[n - 1];
            var uncovered := PoolsCovering(pools, l.teamName, l.date) == 0;
            RevenueSum(Unpooled(leads, pools)) ==
            RevenueSum(Unpooled(leads[..n - 1], pools)) + (if uncovered then l.revenue else 0) &&
            |Unpooled(leads, pools)| == |Unpooled(leads[..n - 1], pools)| + (if uncovered then 1 else 0)
  {
    var n := |leads|;
    var l := leads[n - 1];
    var rest := if PoolsCovering(pools, l.teamName, l.date) == 0 then [l] else [];
    RevenueSumAppend(Unpooled(leads[..n - 1], pools), rest);
    assert RevenueSum(rest) == if PoolsCovering(pools, l.teamName, l.date) == 0 then l.revenue else 0;
  }
}
