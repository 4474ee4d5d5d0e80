/** The segmentation seen one team at a time. Each team's pools evolve by a two-state machine
    (no pool yet / latest pool with its members) driven only by that team's daily members, so
    other teams and repeated entries of `teams` do not affect them. */
module TeamView {
  import opened Ledger
  import opened Pools
  import opened Membership
  import opened Segmentation

  /** The pools of one team, in creation order. */
  function TeamPools(pools: seq<Pool>, team: string): (r: seq<Pool>)
    ensures |r| <= |pools|
    ensures forall i :: 0 <= i < |r| ==> r[i].teamName == team
  {
    if pools == [] then []
    else
      var last := pools[|pools| - 1];
      TeamPools(pools[..|pools| - 1], team) + (if last.teamName == team then [last] else [])
  }

  /** Every pool of the team is kept, and nothing else. */
  lemma {:induction false} TeamPoolsExactly(pools: seq<Pool>, team: string)
    ensures forall p :: p in TeamPools(pools, team) <==> p in pools && p.teamName == team
  {
    if pools != [] {
      var init := pools[..|pools| - 1];
      TeamPoolsExactly(init, team);
      assert pools == init + [pools[|pools| - 1]];
    }
  }

  /** One day of one team's state machine on its own list of pools. */
  function TeamStep(teamPools: seq<Pool>, team: string, today: int, members: seq<string>): seq<Pool>
  {
    if teamPools == [] then
      (if members != [] then [NewPool(team, members, today)] else [])
    else
      var latest := teamPools[|teamPools| - 1];
      if members != [] && members != latest.resourceNames then teamPools + [NewPool(team, members, today)]
      else teamPools[..|teamPools| - 1] + [latest.(lastDay := today)]
  }

  /** The team's members on each day from `start` through `day`. */
  function Schedule(ledger: seq<Resource>, team: string, start: int, day: int): (schedule: seq<seq<string>>)
    requires WindowsValid(ledger)
    ensures |schedule| == if day < start then 0 else day - start + 1
    ensures forall k :: 0 <= k < |schedule| ==> schedule[k] == Members(ledger, team, start + k)
    decreases day - start
  {
    if day < start then [] else Schedule(ledger, team, start, day - 1) + [Members(ledger, team, day)]
  }

  /** The state machine run over a schedule whose first entry is the members on `start`. */
  function RunLength(schedule: seq<seq<string>>, team: string, start: int): seq<Pool>
  {
    if schedule == [] then []
    else
      var n := |schedule|;
      TeamStep(RunLength(schedule[..n - 1], team, start), team, start + n - 1, schedule[n - 1])
  }

  /** One team's pools after every day from `start` through `day`. */
  function TeamTimeline(ledger: seq<Resource>, team: string, start: int, day: int): seq<Pool>
    requires WindowsValid(ledger)
  {
    RunLength(Schedule(ledger, team, start, day), team, start)
  }

  lemma TeamTimelineStep(ledger: seq<Resource>, team: string, start: int, day: int)
    requires WindowsValid(ledger) && start <= day
    ensures TeamTimeline(ledger, team, start, day) ==
            TeamStep(TeamTimeline(ledger, team, start, day - 1), team, day, Members(ledger, team, day))
  {
    var schedule := Schedule(ledger, team, start, day);
    assert schedule[..|schedule| - 1] == Schedule(ledger, team, start, day - 1);
  }

  lemma TeamPoolsAppend(pools: seq<Pool>, p: Pool, team: string)
    ensures TeamPools(pools + [p], team) == TeamPools(pools, team) + (if p.teamName == team then [p] else [])
  {
    assert (pools + [p])[..|pools|] == pools;
  }

  /** The source's "latest pool of the team" is the last of the team's pools. */
  lemma {:induction false} LatestIsLastOfTeam(pools: seq<Pool>, team: string)
    ensures LastPoolIndex(pools, team).None? <==> TeamPools(pools, team) == []
    ensures LastPoolIndex(pools, team).Some? ==>
              var tp := TeamPools(pools, team);
              tp != [] && pools[LastPoolIndex(pools, team).value] == tp[|tp| - 1]
  {
    if pools != [] && pools[|pools| - 1].teamName != team {
      LatestIsLastOfTeam(pools[..|pools| - 1], team);
    }
  }

  /** Replacing the latest pool of a team replaces the last of that team's pools and leaves
      every other team's pools alone. */
  lemma UpdateLatestTeamPools(pools: seq<Pool>, team: string, q: Pool, other: string)
    requires LastPoolIndex(pools, team).Some? && q.teamName == team
    ensures var tp := TeamPools(pools, team);
            var updated := pools[LastPoolIndex(pools, team).value := q];
            tp != [] &&
            TeamPools(updated, other) == if other == team then tp[..|tp| - 1] + [q] else TeamPools(pools, other)
  {
    LatestIsLastOfTeam(pools, team);
    if other == team {
      UpdateLatestOwnPools(pools, team, q);
    } else {
      UpdateLatestOtherPools(pools, team, q, other);
    }
  }

  lemma {:induction false} UpdateLatestOwnPools(pools: seq<Pool>, team: string, q: Pool)
    requires LastPoolIndex(pools, team).Some? && q.teamName == team
    ensures var tp := TeamPools(pools, team);
            tp != [] && TeamPools(pools[LastPoolIndex(pools, team).value := q], team) == tp[..|tp| - 1] + [q]
  {
    LatestIsLastOfTeam(pools, team);
    var n := |pools|;
    var k := LastPoolIndex(pools, team).value;
    var init := pools[..n - 1];
    var tpi := TeamPools(init, team);
    if k == n - 1 {
      assert pools[k := q] == init + [q];
      TeamPoolsAppend(init, q, team);
      assert TeamPools(pools, team) == tpi + [pools[n - 1]];
      assert (tpi + [pools[n - 1]])[..|tpi|] == tpi;
    } else {
      assert pools[n - 1].teamName != team;
      assert LastPoolIndex(pools, team) == LastPoolIndex(init, team);
      assert pools[k := q] == init[k := q] + [pools[n - 1]];
      TeamPoolsAppend(init[k := q], pools[n - 1], team);
      assert TeamPools(pools[k := q], team) == TeamPools(init[k := q], team);
      assert TeamPools(pools, team) == tpi;
      UpdateLatestOwnPools(init, team, q);
    }
  }

  lemma {:induction false} UpdateLatestOtherPools(pools: seq<Pool>, team: string, q: Pool, other: string)
    requires LastPoolIndex(pools, team).Some? && q.teamName == team && other != team
    ensures TeamPools(pools[LastPoolIndex(pools, team).value := q], other) == TeamPools(pools, other)
  {
    var n := |pools|;
    var k := LastPoolIndex(pools, team).value;
    var init := pools[..n - 1];
    if k == n - 1 {
      assert pools[k := q] == init + [q];
      TeamPoolsAppend(init, q, other);
      TeamPoolsAppend(init, pools[n - 1], other);
      assert pools == init + [pools[n - 1]];
    } else {
      assert LastPoolIndex(pools, team) == LastPoolIndex(init, team);
      assert pools[k := q] == init[k := q] + [pools[n - 1]];
      TeamPoolsAppend(init[k := q], pools[n - 1], other);
      UpdateLatestOtherPools(init, team, q, other);
    }
  }

  /** One inner-loop step for `team` acts on `team`'s pools as the state machine and leaves
      every other team's pools unchanged. */
  lemma StepTeamPools(pools: seq<Pool>, team: string, today: int, members: seq<string>, other: string)
    ensures TeamPools(Step(pools, team, today, members), other) ==
            if other == team then TeamStep(TeamPools(pools, team), team, today, members)
            else TeamPools(pools, other)
  {
    LatestIsLastOfTeam(pools, team);
    var latest := LastPoolIndex(pools, team);
    if members != [] && (latest.None? || members != pools[latest.value].resourceNames) {
      TeamPoolsAppend(pools, NewPool(team, members, today), other);
    } else if latest.Some? {
      UpdateLatestTeamPools(pools, team, pools[latest.value].(lastDay := today), other);
    }
  }

  lemma TeamStepIdempotent(teamPools: seq<Pool>, team: string, today: int, members: seq<string>)
    ensures TeamStep(TeamStep(teamPools, team, today, members), team, today, members) ==
            TeamStep(teamPools, team, today, members)
  {
    var once := TeamStep(teamPools, team, today, members);
    if once != [] {
      var latest := once[|once| - 1];
      assert latest.lastDay == today;
      assert members == [] || members == latest.resourceNames;
      assert TeamStep(once, team, today, members) == once[..|once| - 1] + [latest.(lastDay := today)];
      assert latest.(lastDay := today) == latest;
      assert once[..|once| - 1] + [latest] == once;
    }
  }

  /** After the inner loop, a team's pools have taken one state-machine step if the team occurs
      in `teams` (however often), and none otherwise. */
  lemma {:induction false} TeamsStepTeamPools(pools: seq<Pool>, ledger: seq<Resource>, teams: seq<string>,
                                              today: int, team: string)
    requires WindowsValid(ledger)
    ensures TeamPools(TeamsStep(pools, ledger, teams, today), team) ==
            if team in teams then TeamStep(TeamPools(pools, team), team, today, Members(ledger, team, today))
            else TeamPools(pools, team)
  {
    if teams != [] {
      var init := teams[..|teams| - 1];
      var last := teams[|teams| - 1];
      assert teams == init + [last];
      TeamsStepTeamPools(pools, ledger, init, today, team);
      StepTeamPools(TeamsStep(pools, ledger, init, today), last, today, Members(ledger, last, today), team);
      if team == last && team in init {
        TeamStepIdempotent(TeamPools(pools, team), team, today, Members(ledger, team, today));
      }
    }
  }

  lemma {:induction false} PoolsThroughTeamPools(ledger: seq<Resource>, teams: seq<string>, start: int,
                                                 day: int, team: string)
    requires WindowsValid(ledger)
    ensures TeamPools(PoolsThrough(ledger, teams, start, day), team) ==
            if team in teams then TeamTimeline(ledger, team, start, day) else []
    decreases day - start
  {
    if day >= start {
      TeamTimelineStep(ledger, team, start, day);
      PoolsThroughTeamPools(ledger, teams, start, day - 1, team);
      TeamsStepTeamPools(PoolsThrough(ledger, teams, start, day - 1), ledger, teams, day, team);
    }
  }

  lemma MembersOnlyOfTeams(ledger: seq<Resource>, team: string, day: int)
    requires WindowsValid(ledger)
    ensures Members(ledger, team, day) != [] ==> team in Teams(ledger)
  {
    var members := Members(ledger, team, day);
    MembersAreOnTeam(ledger, team, day);
    if members != [] {
      assert members[0] in members;
    }
  }

  /** A name that is no team key has no members and hence no pools. */
  lemma {:induction false} UnknownTeamHasNoTimeline(ledger: seq<Resource>, team: string, start: int, day: int)
    requires WindowsValid(ledger)
    requires team !in Teams(ledger)
    ensures TeamTimeline(ledger, team, start, day) == []
    decreases day - start
  {
    if day >= start {
      TeamTimelineStep(ledger, team, start, day);
      UnknownTeamHasNoTimeline(ledger, team, start, day - 1);
      MembersOnlyOfTeams(ledger, team, day);
    }
  }

  /** The pools the segmentation produces for any team are exactly that team's own timeline:
      no other team and no repetition in `teams` changes them. */
  lemma SegmentByTeam(ledger: seq<Resource>, start: int, end: int, team: string)
    requires WindowsValid(ledger)
    ensures TeamPools(Segment(ledger, start, end), team) == TeamTimeline(ledger, team, start, end)
  {
    PoolsThroughTeamPools(ledger, Teams(ledger), start, end, team);
    if team !in Teams(ledger) {
      UnknownTeamHasNoTimeline(ledger, team, start, end);
    }
  }
}
