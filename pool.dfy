/** A pool of resources on a team over a range of days (Pool.cs), the revenue events it
    receives, and the two aggregates computed from them. */
module Pools {

  /** One revenue event: one amount booked by a resource for a team on a date. */
  datatype Lead = Lead(teamName: string, resourceName: string, date: int, revenue: int)

  /** A team's stable membership from FirstDay through LastDay, and the leads it collects. */
  datatype Pool = Pool(teamName: string, resourceNames: seq<string>, firstDay: int, lastDay: int,
                       leads: seq<Lead>)

  /** Sum of the revenue of a list of leads, 0 for no leads. */
  function RevenueSum(leads: seq<Lead>): int
  {
    if leads == [] then 0 else RevenueSum(leads[..|leads| - 1]) + leads[|leads| - 1].revenue
  }

  /** TotalLeads: the number of leads in the pool. */
  function TotalLeads(pool: Pool): (n: nat)
    ensures pool.leads == [] <==> n == 0
  {
    |pool.leads|
  }

  /** TotalRevenue: the sum of the revenue of the pool's leads. */
  function TotalRevenue(pool: Pool): (total: int)
    ensures pool.leads == [] ==> total == 0
  {
    RevenueSum(pool.leads)
  }

  /** Revenue of a concatenation is the sum of the revenues of its parts. */
  lemma {:induction false} RevenueSumAppend(a: seq<Lead>, b: seq<Lead>)
    ensures RevenueSum(a + b) == RevenueSum(a) + RevenueSum(b)
  {
    if b == [] {
      assert a + b == a;
    } else {
      var b' := b[..|b| - 1];
      assert (a + b)[..|a + b| - 1] == a + b';
      RevenueSumAppend(a, b');
    }
  }

  /** A pool whose leads are split between two pools has the sum of their revenues, and what
      those pools are otherwise (team, members, days) does not matter. */
  lemma TotalRevenueSplit(whole: Pool, first: Pool, second: Pool)
    requires whole.leads == first.leads + second.leads
    ensures TotalRevenue(whole) == TotalRevenue(first) + TotalRevenue(second)
    ensures TotalLeads(whole) == TotalLeads(first) + TotalLeads(second)
  {
    RevenueSumAppend(first.leads, second.leads);
  }

  /** Both aggregates read only the pool's leads. */
  lemma AggregatesReadOnlyLeads(p: Pool, q: Pool)
    requires p.leads == q.leads
    ensures TotalLeads(p) == TotalLeads(q) && TotalRevenue(p) == TotalRevenue(q)
  {
  }
}
