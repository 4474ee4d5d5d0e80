/** Properties of one team's pools over the reporting period: they lie in the period, tile it
    without gaps or overlaps from the first day the team has members, each starts with the
    members of its first day, and the members differ from a pool's only on days when the team
    has no members at all. The facts are proved for the state machine run over any schedule of
    daily members and then applied to the schedule the ledger gives. */
module Timeline {
  import opened Ledger
  import opened Pools
  import opened Membership
  import opened Segmentation
  import opened TeamView

  /** Each pool belongs to the team, lies within the scheduled days, has members and records
      the members of its first day; no leads are attached yet. */
  predicate PoolsInPeriod(schedule: seq<seq<string>>, team: string, start: int, tp: seq<Pool>)
  {
    forall i :: 0 <= i < |tp| ==>
      tp[i].teamName == team && start <= tp[i].firstDay <= tp[i].lastDay < start + |schedule| &&
      tp[i].resourceNames != [] && tp[i].resourceNames == schedule[tp[i].firstDay - start] &&
      tp[i].leads == []
  }

  /** Each pool starts the day after the previous one ends. */
  predicate Contiguous(tp: seq<Pool>)
  {
    forall i :: 0 < i < |tp| ==> tp[i].firstDay == tp[i - 1].lastDay + 1
  }

  /** Consecutive pools have different members. */
  predicate ChangesAtBoundaries(tp: seq<Pool>)
  {
    forall i :: 0 < i < |tp| ==> tp[i].resourceNames != tp[i - 1].resourceNames
  }

  /** The latest pool ends on the last scheduled day. */
  predicate ReachesEnd(schedule: seq<seq<string>>, start: int, tp: seq<Pool>)
  {
    tp != [] ==> tp[|tp| - 1].lastDay == start + |schedule| - 1
  }

  /** On every day a pool spans, the team has either no members or exactly the pool's. */
  predicate StableWithin(schedule: seq<seq<string>>, start: int, tp: seq<Pool>)
  {
    forall i, k :: 0 <= i < |tp| && 0 <= k < |schedule| && tp[i].firstDay <= start + k <= tp[i].lastDay ==>
      schedule[k] == [] || schedule[k] == tp[i].resourceNames
  }

  /** Before the first pool, or throughout when there is none, the team has no members. */
  predicate QuietBefore(schedule: seq<seq<string>>, start: int, tp: seq<Pool>)
  {
    forall k :: 0 <= k < |schedule| && (tp == [] || start + k < tp[0].firstDay) ==> schedule[k] == []
  }

  predicate TimelineInvariant(schedule: seq<seq<string>>, team: string, start: int, tp: seq<Pool>)
  {
    PoolsInPeriod(schedule, team, start, tp) && Contiguous(tp) && ChangesAtBoundaries(tp) &&
    ReachesEnd(schedule, start, tp) && StableWithin(schedule, start, tp) && QuietBefore(schedule, start, tp)
  }

  /** Every day of the scan keeps the invariant of a team's pools. */
  lemma {:induction false} RunLengthInvariant(schedule: seq<seq<string>>, team: string, start: int)
    ensures TimelineInvariant(schedule, team, start, RunLength(schedule, team, start))
  {
    if schedule != [] {
      var n := |schedule|;
      var earlier := schedule[..n - 1];
      RunLengthInvariant(earlier, team, start);
      var before := RunLength(earlier, team, start);
      var members := schedule[n - 1];
      if before == [] {
        if members != [] {
          FirstPoolInvariant(schedule, team, start);
        } else {
          assert QuietBefore(schedule, start, []) by {
            assert forall k :: 0 <= k < n - 1 ==> schedule[k] == earlier[k];
          }
        }
      } else if members != [] && members != before[|before| - 1].resourceNames {
        NewPoolKeepsInvariant(schedule, team, start, before);
        assert RunLength(schedule, team, start) == Opened(schedule, team, start, before);
      } else {
        StampKeepsInvariant(schedule, team, start, before);
        assert RunLength(schedule, team, start) == Stamped(schedule, start, before);
      }
    }
  }

  lemma FirstPoolInvariant(schedule: seq<seq<string>>, team: string, start: int)
    requires schedule != [] && schedule[|schedule| - 1] != []
    requires QuietBefore(schedule[..|schedule| - 1], start, [])
    ensures var n := |schedule|;
            TimelineInvariant(schedule, team, start, [NewPool(team, schedule[n - 1], start + n - 1)])
  {
    var n := |schedule|;
    var tp := [NewPool(team, schedule[n - 1], start + n - 1)];
    assert PoolsInPeriod(schedule, team, start, tp);
    assert StableWithin(schedule, start, tp);
    assert QuietBefore(schedule, start, tp) by {
      assert forall k :: 0 <= k < n - 1 ==> schedule[k] == schedule[..n - 1][k];
    }
    assert Contiguous(tp) && ChangesAtBoundaries(tp) && ReachesEnd(schedule, start, tp);
  }

  /** The pools after a day on which a new pool opens: `TeamStep`'s appending branch, in the
      schedule's terms. */
  function Opened(schedule: seq<seq<string>>, team: string, start: int, before: seq<Pool>): seq<Pool>
    requires schedule != []
  {
    var n := |schedule|;
    before + [NewPool(team, schedule[n - 1], start + n - 1)]
  }

  /** The pools after a day on which the latest pool is stamped with the day: `TeamStep`'s
      stamping branch, in the schedule's terms. */
  function Stamped(schedule: seq<seq<string>>, start: int, before: seq<Pool>): seq<Pool>
    requires before != []
  {
    var m := |before|;
    before[..m - 1] + [before[m - 1].(lastDay := start + |schedule| - 1)]
  }

  lemma NewPoolKeepsInvariant(schedule: seq<seq<string>>, team: string, start: int, before: seq<Pool>)
    requires schedule != [] && before != []
    requires TimelineInvariant(schedule[..|schedule| - 1], team, start, before)
    requires var members := schedule[|schedule| - 1];
             members != [] && members != before[|before| - 1].resourceNames
    ensures TimelineInvariant(schedule, team, start, Opened(schedule, team, start, before))
  {
    NewPoolShape(schedule, team, start, before);
    NewPoolStable(schedule, team, start, before);
    NewPoolQuiet(schedule, team, start, before);
  }

  lemma NewPoolShape(schedule: seq<seq<string>>, team: string, start: int, before: seq<Pool>)
    requires schedule != [] && before != []
    requires TimelineInvariant(schedule[..|schedule| - 1], team, start, before)
    requires var members := schedule[|schedule| - 1];
             members != [] && members != before[|before| - 1].resourceNames
    ensures var after := Opened(schedule, team, start, before);
            PoolsInPeriod(schedule, team, start, after) && Contiguous(after) &&
            ChangesAtBoundaries(after) && ReachesEnd(schedule, start, after)
  {
    NewPoolInPeriod(schedule, team, start, before);
    NewPoolLinks(schedule, team, start, before);
  }

  lemma NewPoolInPeriod(schedule: seq<seq<string>>, team: string, start: int, before: seq<Pool>)
    requires schedule != [] && schedule[|schedule| - 1] != []
    requires PoolsInPeriod(schedule[..|schedule| - 1], team, start, before)
    ensures PoolsInPeriod(schedule, team, start, Opened(schedule, team, start, before))
  {
    var n := |schedule|;
    var earlier := schedule[..n - 1];
    var m := |before|;
    var after := Opened(schedule, team, start, before);
    forall i | 0 <= i < m + 1
      ensures after[i].teamName == team && start <= after[i].firstDay <= after[i].lastDay < start + n
      ensures after[i].resourceNames != [] && after[i].resourceNames == schedule[after[i].firstDay - start]
      ensures after[i].leads == []
    {
      if i < m {
        assert after[i] == before[i];
        assert schedule[before[i].firstDay - start] == earlier[before[i].firstDay - start];
      }
    }
  }

  lemma NewPoolLinks(schedule: seq<seq<string>>, team: string, start: int, before: seq<Pool>)
    requires schedule != [] && before != []
    requires Contiguous(before) && ChangesAtBoundaries(before)
    requires ReachesEnd(schedule[..|schedule| - 1], start, before)
    requires schedule[|schedule| - 1] != before[|before| - 1].resourceNames
    ensures var after := Opened(schedule, team, start, before);
            Contiguous(after) && ChangesAtBoundaries(after) && ReachesEnd(schedule, start, after)
  {
    var after := Opened(schedule, team, start, before);
    assert forall i :: 0 <= i < |before| ==> after[i] == before[i];
  }

  lemma NewPoolStable(schedule: seq<seq<string>>, team: string, start: int, before: seq<Pool>)
    requires schedule != [] && before != []
    requires TimelineInvariant(schedule[..|schedule| - 1], team, start, before)
    ensures StableWithin(schedule, start, Opened(schedule, team, start, before))
  {
    var n := |schedule|;
    var earlier := schedule[..n - 1];
    var m := |before|;
    var after := Opened(schedule, team, start, before);
    forall i, k | 0 <= i < |after| && 0 <= k < n && after[i].firstDay <= start + k <= after[i].lastDay
      ensures schedule[k] == [] || schedule[k] == after[i].resourceNames
    {
      if i < m {
        assert after[i] == before[i];
        assert schedule[k] == earlier[k];
      }
    }
  }

  lemma NewPoolQuiet(schedule: seq<seq<string>>, team: string, start: int, before: seq<Pool>)
    requires schedule != [] && before != []
    requires TimelineInvariant(schedule[..|schedule| - 1], team, start, before)
    ensures QuietBefore(schedule, start, Opened(schedule, team, start, before))
  {
    var n := |schedule|;
    var earlier := schedule[..n - 1];
    assert forall k :: 0 <= k < n - 1 ==> schedule[k] == earlier[k];
    assert Opened(schedule, team, start, before)[0] == before[0];
  }

  lemma StampKeepsInvariant(schedule: seq<seq<string>>, team: string, start: int, before: seq<Pool>)
    requires schedule != [] && before != []
    requires TimelineInvariant(schedule[..|schedule| - 1], team, start, before)
    requires var members := schedule[|schedule| - 1];
             members == [] || members == before[|before| - 1].resourceNames
    ensures TimelineInvariant(schedule, team, start, Stamped(schedule, start, before))
  {
    StampShape(schedule, team, start, before);
    StampStable(schedule, team, start, before);
    StampQuiet(schedule, team, start, before);
  }

  lemma StampShape(schedule: seq<seq<string>>, team: string, start: int, before: seq<Pool>)
    requires schedule != [] && before != []
    requires TimelineInvariant(schedule[..|schedule| - 1], team, start, before)
    ensures var after := Stamped(schedule, start, before);
            PoolsInPeriod(schedule, team, start, after) && Contiguous(after) &&
            ChangesAtBoundaries(after) && ReachesEnd(schedule, start, after)
  {
    StampInPeriod(schedule, team, start, before);
    StampLinks(schedule, start, before);
  }

  lemma StampInPeriod(schedule: seq<seq<string>>, team: string, start: int, before: seq<Pool>)
    requires schedule != [] && before != []
    requires PoolsInPeriod(schedule[..|schedule| - 1], team, start, before)
    ensures PoolsInPeriod(schedule, team, start, Stamped(schedule, start, before))
  {
    var n := |schedule|;
    var earlier := schedule[..n - 1];
    var m := |before|;
    var after := Stamped(schedule, start, before);
    forall i | 0 <= i < m
      ensures after[i].teamName == team && start <= after[i].firstDay <= after[i].lastDay < start + n
      ensures after[i].resourceNames != [] && after[i].resourceNames == schedule[after[i].firstDay - start]
      ensures after[i].leads == []
    {
      assert after[i] == if i < m - 1 then before[i] else before[m - 1].(lastDay := start + n - 1);
      assert schedule[before[i].firstDay - start] == earlier[before[i].firstDay - start];
    }
  }

  lemma StampLinks(schedule: seq<seq<string>>, start: int, before: seq<Pool>)
    requires schedule != [] && before != []
    requires Contiguous(before) && ChangesAtBoundaries(before)
    ensures var after := Stamped(schedule, start, before);
            Contiguous(after) && ChangesAtBoundaries(after) && ReachesEnd(schedule, start, after)
  {
    var m := |before|;
    var after := Stamped(schedule, start, before);
    assert forall i :: 0 <= i < m - 1 ==> after[i] == before[i];
    assert after[m - 1] == before[m - 1].(lastDay := start + |schedule| - 1);
  }

  lemma StampStable(schedule: seq<seq<string>>, team: string, start: int, before: seq<Pool>)
    requires schedule != [] && before != []
    requires TimelineInvariant(schedule[..|schedule| - 1], team, start, before)
    requires var members := schedule[|schedule| - 1];
             members == [] || members == before[|before| - 1].resourceNames
    ensures StableWithin(schedule, start, Stamped(schedule, start, before))
  {
    var n := |schedule|;
    var earlier := schedule[..n - 1];
    var m := |before|;
    var after := Stamped(schedule, start, before);
    forall i, k | 0 <= i < m && 0 <= k < n && after[i].firstDay <= start + k <= after[i].lastDay
      ensures schedule[k] == [] || schedule[k] == after[i].resourceNames
    {
      if i < m - 1 {
        assert after[i] == before[i];
      } else {
        assert after[i] == before[m - 1].(lastDay := start + n - 1);
      }
      if k < n - 1 {
        assert schedule[k] == earlier[k];
        assert before[i].firstDay <= start + k <= before[i].lastDay;
      }
    }
  }

  lemma StampQuiet(schedule: seq<seq<string>>, team: string, start: int, before: seq<Pool>)
    requires schedule != [] && before != []
    requires TimelineInvariant(schedule[..|schedule| - 1], team, start, before)
    ensures QuietBefore(schedule, start, Stamped(schedule, start, before))
  {
    var n := |schedule|;
    var earlier := schedule[..n - 1];
    assert forall k :: 0 <= k < n - 1 ==> schedule[k] == earlier[k];
    assert Stamped(schedule, start, before)[0].firstDay == before[0].firstDay;
  }

  /** Pools that each span at least one day and follow one another contiguously are ordered and
      disjoint: an earlier pool ends before a later one starts. */
  lemma {:induction false} ContiguousPoolsDisjoint(tp: seq<Pool>)
    requires forall i :: 0 <= i < |tp| ==> tp[i].firstDay <= tp[i].lastDay
    requires Contiguous(tp)
    ensures forall i, j :: 0 <= i < j < |tp| ==> tp[i].lastDay < tp[j].firstDay
  {
    if |tp| > 1 {
      var n := |tp|;
      var init := tp[..n - 1];
      assert forall i :: 0 <= i < |init| ==> init[i] == tp[i];
      ContiguousPoolsDisjoint(init);
      forall i | 0 <= i < n - 1
        ensures tp[i].lastDay < tp[n - 1].firstDay
      {
        if i < n - 2 {
          assert tp[i].lastDay < tp[n - 2].firstDay;
        }
      }
    }
  }

  /** The number of the team's pools whose range contains the day. */
  function PoolsCovering(pools: seq<Pool>, team: string, day: int): (n: nat)
    ensures n == 0 <==>
            forall i :: 0 <= i < |pools| ==> !(pools[i].teamName == team && pools[i].firstDay <= day <= pools[i].lastDay)
  {
    if pools == [] then 0
    else
      var init := pools[..|pools| - 1];
      var last := pools[|pools| - 1];
      assert forall i :: 0 <= i < |init| ==> init[i] == pools[i];
      PoolsCovering(init, team, day) +
      (if last.teamName == team && last.firstDay <= day <= last.lastDay then 1 else 0)
  }

  lemma PoolsCoveringAppend(pools: seq<Pool>, p: Pool, team: string, day: int)
    ensures PoolsCovering(pools + [p], team, day) ==
            PoolsCovering(pools, team, day) + (if p.teamName == team && p.firstDay <= day <= p.lastDay then 1 else 0)
  {
    assert (pools + [p])[..|pools|] == pools;
  }

  /** Only the team's own pools can cover one of its days. */
  lemma {:induction false} CoveringByTeam(pools: seq<Pool>, team: string, day: int)
    ensures PoolsCovering(pools, team, day) == PoolsCovering(TeamPools(pools, team), team, day)
  {
    if pools != [] {
      var init := pools[..|pools| - 1];
      var last := pools[|pools| - 1];
      CoveringByTeam(init, team, day);
      assert PoolsCovering(pools, team, day) ==
             PoolsCovering(init, team, day) + (if last.teamName == team && last.firstDay <= day <= last.lastDay then 1 else 0);
      if last.teamName == team {
        assert TeamPools(pools, team) == TeamPools(init, team) + [last];
        PoolsCoveringAppend(TeamPools(init, team), last, team, day);
      } else {
        assert TeamPools(pools, team) == TeamPools(init, team) + [];
        assert TeamPools(init, team) + [] == TeamPools(init, team);
      }
    }
  }

  /** Contiguous pools of one team cover each day from the first one's start through the last
      one's end exactly once, and no other day. */
  lemma {:induction false} TiledCoverage(tp: seq<Pool>, team: string, day: int)
    requires forall i :: 0 <= i < |tp| ==> tp[i].teamName == team && tp[i].firstDay <= tp[i].lastDay
    requires Contiguous(tp)
    ensures PoolsCovering(tp, team, day) ==
            if tp != [] && tp[0].firstDay <= day <= tp[|tp| - 1].lastDay then 1 else 0
  {
    if tp != [] {
      var n := |tp|;
      var init := tp[..n - 1];
      assert forall i :: 0 <= i < |init| ==> init[i] == tp[i];
      TiledCoverage(init, team, day);
      assert PoolsCovering(tp, team, day) ==
             PoolsCovering(init, team, day) + (if tp[n - 1].firstDay <= day <= tp[n - 1].lastDay then 1 else 0);
      if n > 1 {
        ContiguousPoolsDisjoint(tp);
        assert tp[n - 1].firstDay == init[n - 2].lastDay + 1;
        assert init[0] == tp[0];
      }
    }
  }

  /** The pools the segmentation produces for one team over [start, end] keep the invariant
      against the team's daily members, and are ordered: each ends before the next starts. */
  lemma SegmentTeamProperties(ledger: seq<Resource>, start: int, end: int, team: string)
    requires WindowsValid(ledger)
    ensures var tp := TeamPools(Segment(ledger, start, end), team);
            TimelineInvariant(Schedule(ledger, team, start, end), team, start, tp) &&
            (forall i, j :: 0 <= i < j < |tp| ==> tp[i].lastDay < tp[j].firstDay) &&
            (forall i, j :: 0 <= i < j < |tp| ==> tp[i].firstDay < tp[j].firstDay)
  {
    SegmentByTeam(ledger, start, end, team);
    RunLengthInvariant(Schedule(ledger, team, start, end), team, start);
    ContiguousPoolsDisjoint(TeamPools(Segment(ledger, start, end), team));
  }

  /** Within the period, a day is covered by exactly one of the team's pools when it is on or
      after the team's first pool's first day, and by none before; every day on which the team
      has members is covered; the team's last pool ends on the last day of the period. */
  lemma SegmentCoversEachDayOnce(ledger: seq<Resource>, start: int, end: int, team: string, day: int)
    requires WindowsValid(ledger) && start <= day <= end
    ensures var pools := Segment(ledger, start, end);
            var tp := TeamPools(pools, team);
            PoolsCovering(pools, team, day) == (if tp != [] && tp[0].firstDay <= day then 1 else 0) &&
            (Members(ledger, team, day) != [] ==> PoolsCovering(pools, team, day) == 1) &&
            (tp != [] ==> tp[|tp| - 1].lastDay == end)
  {
    var pools := Segment(ledger, start, end);
    var schedule := Schedule(ledger, team, start, end);
    SegmentTeamProperties(ledger, start, end, team);
    CoveringByTeam(pools, team, day);
    TiledCoverage(TeamPools(pools, team), team, day);
    assert schedule[day - start] == Members(ledger, team, day);
  }

  /** A pool that spans a day is still the pool of the next day when the team then has no
      members or the same members: identical membership after a gap continues the pool. */
  lemma PoolContinues(ledger: seq<Resource>, start: int, end: int, team: string, i: nat, day: int)
    requires WindowsValid(ledger) && start < day <= end
    requires var tp := TeamPools(Segment(ledger, start, end), team);
             i < |tp| && tp[i].firstDay <= day - 1 <= tp[i].lastDay
    requires var m := Members(ledger, team, day);
             var tp := TeamPools(Segment(ledger, start, end), team);
             m == [] || m == tp[i].resourceNames
    ensures var tp := TeamPools(Segment(ledger, start, end), team);
            tp[i].lastDay >= day
  {
    var tp := TeamPools(Segment(ledger, start, end), team);
    var schedule := Schedule(ledger, team, start, end);
    SegmentByTeam(ledger, start, end, team);
    RunLengthInvariant(schedule, team, start);
    ContinuesInSchedule(schedule, team, start, tp, i, day - start);
  }

  /** The same on any schedule: a pool spanning day k - 1 spans day k when that day's members
      are none or the pool's. */
  lemma ContinuesInSchedule(schedule: seq<seq<string>>, team: string, start: int, tp: seq<Pool>, i: nat, k: nat)
    requires TimelineInvariant(schedule, team, start, tp)
    requires i < |tp| && 0 < k < |schedule| && tp[i].firstDay <= start + k - 1 <= tp[i].lastDay
    requires schedule[k] == [] || schedule[k] == tp[i].resourceNames
    ensures tp[i].lastDay >= start + k
  {
    if i + 1 < |tp| {
      assert tp[i + 1].firstDay == tp[i].lastDay + 1;
      assert tp[i + 1].resourceNames != tp[i].resourceNames;
    }
  }
}
