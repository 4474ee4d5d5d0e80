/** Pool segmentation (Program.cs, the loop over days and teams): day by day, each team's
    latest pool is either extended to today or, when its membership changed, followed by a
    new pool. */
module Segmentation {
  import opened Ledger
  import opened Pools
  import opened Membership

  /** `pools.Where(p => p.TeamName == team).LastOrDefault()`, as an index into `pools`. */
  function LastPoolIndex(pools: seq<Pool>, team: string): (r: Option<nat>)
    ensures r.Some? ==> r.value < |pools| && pools[r.value].teamName == team &&
                        forall k :: r.value < k < |pools| ==> pools[k].teamName != team
    ensures r.None? ==> forall k :: 0 <= k < |pools| ==> pools[k].teamName != team
  {
    if pools == [] then None
    else if pools[|pools| - 1].teamName == team then Some(|pools| - 1)
    else LastPoolIndex(pools[..|pools| - 1], team)
  }

  /** A pool opened today with the given members; its leads are filled in later. */
  function NewPool(team: string, members: seq<string>, today: int): Pool
  {
    Pool(team, members, today, today, [])
  }

  /** One pass of the inner loop body for one team on one day, given that day's members. */
  function Step(pools: seq<Pool>, team: string, today: int, members: seq<string>): seq<Pool>
  {
    match LastPoolIndex(pools, team)
    case None =>
      if members != [] then pools + [NewPool(team, members, today)] else pools
    case Some(k) =>
      if members != [] && members != pools[k].resourceNames then pools + [NewPool(team, members, today)]
      else pools[k := pools[k].(lastDay := today)]
  }

  /** The inner loop: every entry of `teams`, in order, on one day. */
  function TeamsStep(pools: seq<Pool>, ledger: seq<Resource>, teams: seq<string>, today: int): seq<Pool>
    requires WindowsValid(ledger)
  {
    if teams == [] then pools
    else
      var team := teams[|teams| - 1];
      Step(TeamsStep(pools, ledger, teams[..|teams| - 1], today), team, today, Members(ledger, team, today))
  }

  /** The outer loop up to and including `day`. */
  function PoolsThrough(ledger: seq<Resource>, teams: seq<string>, start: int, day: int): seq<Pool>
    requires WindowsValid(ledger)
    decreases day - start
  {
    if day < start then []
    else TeamsStep(PoolsThrough(ledger, teams, start, day - 1), ledger, teams, day)
  }

  /** The pools of the reporting period from `start` through `end`, in creation order. */
  function Segment(ledger: seq<Resource>, start: int, end: int): seq<Pool>
    requires WindowsValid(ledger)
  {
    PoolsThrough(ledger, Teams(ledger), start, end)
  }

  /** Builds the pools day by day, team by team, as `Main` does. */
  method BuildPools(ledger: seq<Resource>, start: int, end: int) returns (pools: seq<Pool>)
    requires WindowsValid(ledger)
    ensures pools == Segment(ledger, start, end)
  {
    var teams := Teams(ledger);
    pools := [];
    var today := start;
    while today <= end
      invariant start <= today && (today <= end + 1 || today == start)
      invariant pools == PoolsThrough(ledger, teams, start, today - 1)
    {
      pools := UpdateTeams(pools, ledger, teams, today);
      today := today + 1;
    }
  }

  /** The inner loop: one day for every team in turn. */
  method UpdateTeams(pools: seq<Pool>, ledger: seq<Resource>, teams: seq<string>, today: int)
    returns (updated: seq<Pool>)
    requires WindowsValid(ledger)
    ensures updated == TeamsStep(pools, ledger, teams, today)
  {
    updated := pools;
    var j := 0;
    assert teams[..0] == [];
    while j < |teams|
      invariant 0 <= j <= |teams|
      invariant updated == TeamsStep(pools, ledger, teams[..j], today)
    {
      ghost var prefix := teams[..j + 1];
      assert prefix[..j] == teams[..j] && prefix[j] == teams[j] && |prefix| == j + 1;
      updated := UpdateTeam(updated, ledger, teams[j], today);
      assert updated == TeamsStep(pools, ledger, prefix, today);
      j := j + 1;
      assert prefix == teams[..j];
    }
    assert teams[..j] == teams;
  }

  /** The body of the inner loop: find the team's latest pool, compute today's members,
      open a new pool when they changed, and stamp today on the latest pool. */
  method UpdateTeam(pools: seq<Pool>, ledger: seq<Resource>, team: string, today: int)
    returns (updated: seq<Pool>)
    requires WindowsValid(ledger)
    ensures updated == Step(pools, team, today, Members(ledger, team, today))
  {
    updated := pools;
    var lastPool := LastPoolIndex(updated, team);
    var members := Members(ledger, team, today);
    if lastPool.None? && members != [] {
      updated := updated + [NewPool(team, members, today)];
      lastPool := Some(|updated| - 1);
    } else if lastPool.Some? && members != [] && members != updated[lastPool.value].resourceNames {
      updated := updated + [NewPool(team, members, today)];
      lastPool := Some(|updated| - 1);
    }
    if lastPool.Some? {
      updated := updated[lastPool.value := updated[lastPool.value].(lastDay := today)];
    }
  }

  /** Processing the same team twice on the same day (`teams` keeps repeated names) adds no
      pool and leaves the pools as the first pass left them. */
  lemma StepIdempotent(pools: seq<Pool>, team: string, today: int, members: seq<string>)
    ensures Step(Step(pools, team, today, members), team, today, members) == Step(pools, team, today, members)
  {
    StepSettles(pools, team, today, members);
    SettledStepNoop(Step(pools, team, today, members), team, today, members);
  }

  /** Appending a pool happens exactly when today's members are non-empty and either the team
      has no pool yet or the members differ, in order, from its latest pool's; the new pool
      starts and ends today. Otherwise nothing is added and only the latest pool of the team,
      if any, has its last day set to today. */
  lemma StepAppendsExactlyOnChange(pools: seq<Pool>, team: string, today: int, members: seq<string>)
    ensures var after := Step(pools, team, today, members);
            var latest := LastPoolIndex(pools, team);
            var changed := members != [] && (latest.None? || members != pools[latest.value].resourceNames);
            (changed ==> after == pools + [NewPool(team, members, today)]) &&
            (!changed ==>
               |after| == |pools| &&
               forall k :: 0 <= k < |pools| ==>
                 after[k] == if latest == Some(k) then pools[k].(lastDay := today) else pools[k])
  {
  }

  /** Replacing a pool by one of the same team moves no team's latest pool. */
  lemma {:induction false} LastPoolIndexSameTeams(pools: seq<Pool>, k: nat, q: Pool, team: string)
    requires k < |pools| && q.teamName == pools[k].teamName
    ensures LastPoolIndex(pools[k := q], team) == LastPoolIndex(pools, team)
  {
    var n := |pools|;
    if k < n - 1 {
      assert pools[k := q][..n - 1] == pools[..n - 1][k := q];
      LastPoolIndexSameTeams(pools[..n - 1], k, q, team);
    }
  }

  /** After the team has been processed today with the given members: it has no pool and no
      members, or its latest pool ends today and the members are none or the pool's. */
  predicate Settled(pools: seq<Pool>, team: string, today: int, members: seq<string>)
  {
    match LastPoolIndex(pools, team)
    case None => members == []
    case Some(k) => pools[k].lastDay == today && (members == [] || members == pools[k].resourceNames)
  }

  lemma StepSettles(pools: seq<Pool>, team: string, today: int, members: seq<string>)
    ensures Settled(Step(pools, team, today, members), team, today, members)
  {
    var after := Step(pools, team, today, members);
    if |after| == |pools| + 1 {
      assert LastPoolIndex(after, team) == Some(|pools|);
    } else if LastPoolIndex(pools, team).Some? {
      var k := LastPoolIndex(pools, team).value;
      LastPoolIndexSameTeams(pools, k, pools[k].(lastDay := today), team);
    }
  }

  /** Stepping a team that is settled for the day changes nothing. */
  lemma SettledStepNoop(pools: seq<Pool>, team: string, today: int, members: seq<string>)
    requires Settled(pools, team, today, members)
    ensures Step(pools, team, today, members) == pools
  {
    if LastPoolIndex(pools, team).Some? {
      var k := LastPoolIndex(pools, team).value;
      assert pools[k := pools[k].(lastDay := today)] == pools;
    }
  }

  /** Appending a pool of another team moves no team's latest pool. */
  lemma LastPoolIndexAppendOther(pools: seq<Pool>, q: Pool, team: string)
    requires q.teamName != team
    ensures LastPoolIndex(pools + [q], team) == LastPoolIndex(pools, team)
  {
    assert (pools + [q])[..|pools|] == pools;
  }

  /** Stepping another team neither moves nor changes this team's latest pool. */
  lemma OtherStepKeepsLatest(pools: seq<Pool>, team: string, today: int, other: string, otherMembers: seq<string>)
    requires other != team
    ensures var after := Step(pools, other, today, otherMembers);
            var latest := LastPoolIndex(pools, team);
            LastPoolIndex(after, team) == latest && (latest.Some? ==> after[latest.value] == pools[latest.value])
  {
    var lo := LastPoolIndex(pools, other);
    if lo.Some? && !(otherMembers != [] && otherMembers != pools[lo.value].resourceNames) {
      var k := lo.value;
      assert Step(pools, other, today, otherMembers) == pools[k := pools[k].(lastDay := today)];
      LastPoolIndexSameTeams(pools, k, pools[k].(lastDay := today), team);
    } else if otherMembers != [] {
      assert Step(pools, other, today, otherMembers) == pools + [NewPool(other, otherMembers, today)];
      LastPoolIndexAppendOther(pools, NewPool(other, otherMembers, today), team);
    }
  }

  /** Stepping another team neither moves nor changes this team's latest pool, so a settled team
      stays settled. */
  lemma OtherStepKeepsSettled(pools: seq<Pool>, team: string, today: int, members: seq<string>,
                              other: string, otherMembers: seq<string>)
    requires other != team && Settled(pools, team, today, members)
    ensures var after := Step(pools, other, today, otherMembers);
            var latest := LastPoolIndex(pools, team);
            LastPoolIndex(after, team) == latest && (latest.Some? ==> after[latest.value] == pools[latest.value])
    ensures Settled(Step(pools, other, today, otherMembers), team, today, members)
  {
    OtherStepKeepsLatest(pools, team, today, other, otherMembers);
  }

  /** Once a team has been processed on a day, it stays settled for the rest of the inner loop. */
  lemma {:induction false} TeamsStepSettled(pools: seq<Pool>, ledger: seq<Resource>, teams: seq<string>,
                                            today: int, team: string)
    requires WindowsValid(ledger) && team in teams
    ensures Settled(TeamsStep(pools, ledger, teams, today), team, today, Members(ledger, team, today))
  {
    var n := |teams|;
    var init := teams[..n - 1];
    var last := teams[n - 1];
    if last == team {
      StepSettles(TeamsStep(pools, ledger, init, today), team, today, Members(ledger, team, today));
    } else {
      assert teams == init + [last];
      TeamsStepSettled(pools, ledger, init, today, team);
      OtherStepKeepsSettled(TeamsStep(pools, ledger, init, today), team, today, Members(ledger, team, today),
                            last, Members(ledger, last, today));
    }
  }

  /** A team name that occurs again in `teams` (names are not deduplicated) changes nothing on
      its second visit, on any day. */
  lemma RepeatedTeamNoEffect(pools: seq<Pool>, ledger: seq<Resource>, teams: seq<string>, today: int, team: string)
    requires WindowsValid(ledger) && team in teams
    ensures TeamsStep(pools, ledger, teams + [team], today) == TeamsStep(pools, ledger, teams, today)
  {
    assert (teams + [team])[..|teams|] == teams;
    TeamsStepSettled(pools, ledger, teams, today, team);
    SettledStepNoop(TeamsStep(pools, ledger, teams, today), team, today, Members(ledger, team, today));
  }

  /** Over the whole period too, listing a team once more gives the same pools. */
  lemma {:induction false} RepeatedTeamNoEffectThrough(ledger: seq<Resource>, teams: seq<string>, start: int,
                                                       day: int, team: string)
    requires WindowsValid(ledger) && team in teams
    ensures PoolsThrough(ledger, teams + [team], start, day) == PoolsThrough(ledger, teams, start, day)
    decreases day - start
  {
    if start <= day {
      RepeatedTeamNoEffectThrough(ledger, teams, start, day - 1, team);
      RepeatedTeamNoEffect(PoolsThrough(ledger, teams, start, day - 1), ledger, teams, day, team);
    }
  }
}
