# 6pool — a verified model of the pool report

6pool reads a ledger of sales resources and reports the team pools of a period with their lead
counts and revenue; it computes no commission. The ledger maps each
resource to its team assignments. Each assignment has an active window and revenue amounts keyed
by date. The program:

- warns about revenue booked outside an assignment's window;
- splits each team's history over the reporting period into *pools*. A new pool opens on a day
  whose non-empty list of members differs from the latest pool's. The latest pool then stretches
  over every following day, including days without members, until the next one opens. With A
  on days 1-2, B on days 4-5 and the period 1-5, the pools are {A} over days 1-3 and {B} over
  days 4-5;
- flattens the ledger into one *lead* per revenue amount dated in the period, taking only
  assignments that start on or after the period's start or end on or before its end;
- gives every pool the leads of its team dated within the pool's days;
- reports each pool's lead count and revenue.

This project models that core, `Main` in `Program.cs` together with `Pool.cs`, and proves what
it promises.

## Representation

- Dates are integer day numbers and money is an integer.
- Each dictionary becomes a sequence of entries in enumeration order (`Ledger`). That order
  decides the order of a pool's `ResourceNames`, so it also decides when two days' memberships
  are "the same".
- The mutable `List<Pool>` is a `seq<Pool>` that the methods reassign. Setting `LastDay` on the
  latest pool is an index update.

## Modules

- `Ledger`: the input shapes, plus well-formedness predicates (unique keys, non-negative-length
  windows).
- `Dates`: `DateRange`.
- `Membership`: the `teams` array and the `members` query.
- `Segmentation`: the day/team loop, as methods (`BuildPools`, `UpdateTeams`, `UpdateTeam`)
  proved equal to a step function (`Step`). Also shows that a repeated team name has no effect.
- `TeamView`: reduces the whole-list loop to one run-length state machine per team.
- `Timeline`: the per-team invariants. Pools lie in the period, tile it contiguously, change
  membership at every boundary, and the last one ends on the last day.
- `SanityCheck`: the warning loops.
- `Flattening`: the lead query.
- `Assignment`: the lead-filling loop and revenue conservation.
- `Pools`: the `Pool` aggregates.
- `Report`: the whole run.

## Quirks of the code that the model keeps

- `teams` (Program.cs:34) keeps repeated team names. Visiting a team a second time on the same
  day changes nothing (`Segmentation.RepeatedTeamNoEffect`).
- The latest pool's `LastDay` is set on every day once the team has a pool, including days with
  no members (Program.cs:90-93). Pools are therefore never closed:
  - a team's pools tile the period from its first pool to the last day;
  - after a gap, the same membership continues the earlier pool (`Timeline.PoolContinues`).
- The flattener admits an assignment when `Start >= startDate || End <= endDate`
  (Program.cs:101). An assignment that starts before the period and ends after it contributes
  no leads (`Flattening.FlattenDropsEnclosingAssignment`).

## Model

| member | source | states |
|---|---|---|
| Dates.DateRange | Program.cs:143-146 | yields `end - start + 1` days, from `start` through `end`, each one more than the previous |
| Dates.InDateRange | Program.cs:143-146 | a day is in the range iff `start <= day <= end`; the days are strictly increasing |
| Membership.Teams | Program.cs:34 | a name is listed iff it is the team key of some assignment of some resource |
| Membership.Members | Program.cs:61-67 | the `members` query; its properties are stated by `MembersAreOnTeam` and `MembersAreActiveResources` |
| Membership.MembersAreOnTeam | Program.cs:61-67 | everyone `members` lists is a resource with an assignment to the team whose window contains the day |
| Membership.DayHitsInRange | Program.cs:65-66 | enumerating a window's days and keeping those equal to today gives the name once if today is in the window, else nothing |
| Membership.AssignmentHitsOnce | Program.cs:63-67 | with unique team keys, one resource contributes its name once if it is on the team that day, else nothing |
| Membership.MembersAreActiveResources | Program.cs:61-67 | `members` equals the reference list: resources in enumeration order whose assignment to the team contains the day; membership iff; no duplicates |
| Membership.ActiveResourcesExactly | Program.cs:61-67 | a name is in the reference list iff a resource of that name is on the team that day |
| Membership.ActiveResourcesUnique | Program.cs:61-67 | with distinct resource names the reference list has no duplicates |
| Segmentation.LastPoolIndex | Program.cs:60 | the index of the team's latest pool, after which no pool of the team follows; `None` iff the team has no pool |
| Segmentation.Step | Program.cs:69-93 | one inner-loop body as a function; its properties are stated by `StepAppendsExactlyOnChange`, `StepSettles` and `StepIdempotent` |
| Segmentation.TeamsStep | Program.cs:58-94 | one day of the inner loop as a function; stated by `TeamsStepSettled` and `TeamView.TeamsStepTeamPools` |
| Segmentation.PoolsThrough | Program.cs:55-95 | the outer loop up to a day as a function; stated by `TeamView.PoolsThroughTeamPools` |
| Segmentation.Segment | Program.cs:55-95 | the segmentation as a function; stated by `TeamView.SegmentByTeam`, `Timeline.SegmentTeamProperties` and `Timeline.SegmentCoversEachDayOnce` |
| Segmentation.UpdateTeam | Program.cs:60-93 | one inner-loop body: the new list is one `Step` with today's `members` |
| Segmentation.UpdateTeams | Program.cs:58-94 | the inner loop applies `Step` for every entry of `teams` in order |
| Segmentation.BuildPools | Program.cs:55-95 | the day/team loop computes `Segment(ledger, start, end)` |
| Segmentation.StepAppendsExactlyOnChange | Program.cs:69-93 | a pool `[d, d]` with today's members is appended iff members are non-empty and the team has no pool or different members; otherwise only the latest pool's `LastDay` becomes today |
| Segmentation.StepSettles | Program.cs:69-93 | after a step, the team's latest pool ends today and holds today's members unless there were none |
| Segmentation.SettledStepNoop | Program.cs:69-93 | a step for a team already processed today changes nothing |
| Segmentation.OtherStepKeepsLatest | Program.cs:58-93 | a step for another team leaves this team's latest pool at the same index and unchanged |
| Segmentation.OtherStepKeepsSettled | Program.cs:58-93 | a step for another team neither moves nor changes this team's latest pool, so a settled team stays settled |
| Segmentation.TeamsStepSettled | Program.cs:58-94 | a team processed earlier in the inner loop stays settled to the end of the day |
| Segmentation.StepIdempotent | Program.cs:58-93 | processing the same team twice in a row on a day equals processing it once |
| Segmentation.RepeatedTeamNoEffect | Program.cs:34 | appending a team name already in `teams` leaves the day's result unchanged |
| Segmentation.RepeatedTeamNoEffectThrough | Program.cs:34 | the same over all days of the period |
| TeamView.TeamPools | Program.cs:60 | the team's pools, no more than all pools, all of that team |
| TeamView.TeamPoolsExactly | Program.cs:60 | a pool is among the team's pools iff it is in the list and belongs to the team |
| TeamView.Schedule | Program.cs:56-67 | one entry per day of the period, the `members` of that day |
| TeamView.StepTeamPools | Program.cs:69-93 | a step acts on its team's pools as the run-length state machine and leaves every other team's pools unchanged |
| TeamView.UpdateLatestTeamPools | Program.cs:90-93 | stamping the latest pool replaces the last of the team's pools and no other team's |
| TeamView.TeamsStepTeamPools | Program.cs:58-94 | after one day, a team's pools took one state-machine step if it is listed, however often, else none |
| TeamView.SegmentByTeam | Program.cs:55-95 | every team's pools in the result are exactly its own run-length timeline |
| TeamView.UnknownTeamHasNoTimeline | Program.cs:34 | a name that is no team key never gets a pool |
| Timeline.RunLengthInvariant | Program.cs:56-95 | over any schedule the team's pools lie in the period with members and no leads, start with their first day's members, are contiguous, differ at every boundary, end on the last day, see only their own members or none, and nothing precedes the first |
| Timeline.ContiguousPoolsDisjoint | Program.cs:56-95 | contiguous non-empty pools are ordered and disjoint |
| Timeline.SegmentTeamProperties | Program.cs:55-95 | the segmentation's pools of a team keep that invariant and have strictly increasing, disjoint day ranges |
| Timeline.PoolsCovering | Program.cs:118 | no pool covers a team's day iff no pool of that team spans the day |
| Timeline.TiledCoverage | Program.cs:56-95 | contiguous pools cover a day once between the first's start and the last's end, else not at all |
| Timeline.SegmentCoversEachDayOnce | Program.cs:55-95 | in the period a day is covered by exactly one of the team's pools iff it is on or after the first pool's first day; every day with members is covered; the last pool ends on `endDate` |
| Timeline.PoolContinues | Program.cs:90-93 | a pool that spans a day still spans the next day when that day's members are none or the pool's own |
| SanityCheck.Warnings | Program.cs:40-52 | a warning is in the list iff it is in the warnings of some resource's assignments |
| SanityCheck.AssignmentWarnings | Program.cs:42-51 | a warning is in the list iff it is in the warnings of one of the resource's assignments |
| SanityCheck.GroupWarnings | Program.cs:44-50 | a warning for a date key iff the date lies outside the assignment's window |
| SanityCheck.CheckAssignment | Program.cs:44-50 | the innermost loop emits exactly `GroupWarnings` |
| SanityCheck.CheckResource | Program.cs:42-51 | the middle loop emits exactly `AssignmentWarnings` |
| SanityCheck.CheckLedger | Program.cs:40-52 | the nested loops emit exactly `Warnings(ledger)`, in order |
| SanityCheck.WarningsExactly | Program.cs:40-52 | a warning is emitted iff some resource's assignment to the team has that date key outside its window |
| SanityCheck.WarningsUnique | Program.cs:40-52 | with unique dictionary keys no warning is emitted twice |
| Flattening.Admitted | Program.cs:101 | the assignment filter: admitted iff `Start >= startDate` or `End <= endDate`; stated by `FlattenDropsEnclosingAssignment` |
| Flattening.AmountLeads | Program.cs:106-112 | one lead per amount, in order, carrying team, resource, date and amount |
| Flattening.GroupLeads | Program.cs:103-112 | a lead comes from a date entry iff the date lies in the period and the amount is among its amounts |
| Flattening.AssignmentLeads | Program.cs:100-112 | a lead comes from an assignment iff the assignment passes the filter and one of its in-period entries has the amount |
| Flattening.Flatten | Program.cs:98-113 | a lead is listed iff it comes from some resource's admitted assignment; every listed lead is dated in the period |
| Flattening.AmountLeadsRevenue | Program.cs:106-112 | the leads of one date entry carry the total of its amounts |
| Flattening.GroupLeadsTotals | Program.cs:103-112 | as many leads as the in-period date entries have amounts, with their total revenue |
| Flattening.AssignmentLeadsTotals | Program.cs:100-112 | as many leads as the admitted assignments have in-period amounts, with their total revenue |
| Flattening.FlattenTotals | Program.cs:98-113 | as many leads as the admitted assignments of all resources have in-period amounts, with their total revenue |
| Flattening.AmountLeadsOccurrences | Program.cs:106-112 | a date entry's leads hold a lead as often as its amounts hold the lead's revenue, if team, resource and date match, else never |
| Flattening.GroupLeadsOccurrences | Program.cs:103-112 | each lead occurs as often as its amount occurs on the matching in-period date entries |
| Flattening.AssignmentLeadsOccurrences | Program.cs:100-112 | each lead occurs as often as its amount occurs on the matching in-period entries of the admitted assignments |
| Flattening.FlattenOccurrences | Program.cs:98-113 | nothing is lost or duplicated: each lead occurs in the list exactly as often as its amount occurs on the in-period entries of the admitted assignments of its resource and team |
| Flattening.FlattenDropsEnclosingAssignment | Program.cs:101 | an assignment starting before and ending after the period contributes no lead for its resource and team |
| Assignment.LeadsIn | Program.cs:118 | a pool's leads are the leads of its team dated within its days, no more than all leads |
| Assignment.Assigned | Program.cs:116-119 | every pool keeps team, members and days and receives `LeadsIn` |
| Assignment.AssignLeads | Program.cs:116-119 | the loop writes exactly `Assigned(pools, leads)` |
| Assignment.PoolsHolding | Program.cs:116-119 | no pool holds the lead iff it is in none of the pools' leads |
| Assignment.Unpooled | Program.cs:116-119 | a lead is unpooled iff no pool covers its team and date |
| Assignment.HoldingIsCovering | Program.cs:116-119 | a lead is held by as many pools as cover its team and date |
| Assignment.OneMoreLeadRevenue | Program.cs:116-119 | one more lead adds its revenue once per covering pool |
| Assignment.OneMoreLeadCount | Program.cs:116-119 | one more lead adds one per covering pool to the lead count |
| Assignment.RevenueByCoverage | Program.cs:116-119 | the pools' revenue and lead count weigh every lead by its number of covering pools |
| Assignment.WeightsSplit | Program.cs:116-119 | with each lead covered at most once, weighted totals plus the unpooled leads' totals give all leads' totals |
| Assignment.RevenueConserved | Program.cs:116-119 | with each lead covered at most once, pools' revenue plus unpooled revenue is the total revenue, and likewise for counts |
| Pools.RevenueSum | Pool.cs:13 | the sum of the leads' revenue; stated by `RevenueSumAppend` |
| Pools.TotalLeads | Pool.cs:12 | the count is 0 iff the pool has no leads |
| Pools.TotalRevenue | Pool.cs:13 | the revenue is 0 for a pool without leads |
| Pools.RevenueSumAppend | Pool.cs:13 | the revenue of concatenated lead lists is the sum of their revenues |
| Pools.TotalRevenueSplit | Pool.cs:12-13 | splitting a pool's leads between two pools conserves revenue and lead count |
| Pools.AggregatesReadOnlyLeads | Pool.cs:12-13 | both aggregates depend only on the leads |
| Report.Run | Program.cs:27-119 | `endDate <= startDate` stops the run. Otherwise, for a ledger whose windows `DateRange` can enumerate, the run emits `Warnings`, the flattened leads (each occurring exactly as often as its amount on the in-period entries of the admitted assignments, with their count and total revenue) and the filled pools. Each lead is held by exactly one pool if its team's first pool starts on or before its date, and always when the team has members that day; otherwise it is held by none. Pool revenue and counts plus those of the unpooled leads equal the leads' totals |

## Left out

- File and JSON input (Program.cs:11-25), the date converter and `RevenueData.Parse`. The model
  receives the parsed ledger with integer dates.
- Time of day. `.Date` truncation and `TimeSpan.Days` are subsumed by integer day numbers.
  Window bounds and date keys that carry a time of day are not modelled. A key at 09:00 on
  `endDate` fails `date <= endDate` (Program.cs:105) and `l.Date <= pool.LastDay`
  (Program.cs:118), and on a window's `End` day it triggers the warning of Program.cs:46; the
  model, which sees only the day, keeps such a lead and warns about none.
- `ConfigData`: it is read but never used.
- Console output: `Message`, `Headline`, `Warning`'s text and `Format.Money`. Also the report
  ordering (Program.cs:121-140) and the per-resource counts (Program.cs:131). The model returns
  the data that is printed. Warnings are records, not strings.
- `Error` (`Environment.Exit`) on `endDate <= startDate` becomes the `Stopped` outcome of
  `Report.Run`. The missing-file errors belong to the I/O that is left out.
- Windows with `Start` more than a day after `End` make `Enumerable.Range` throw inside the
  `members` query. This is required away by `WindowsValid` on `Members`, `Segment` and
  `Report.Run` rather than modelled as a crash.
- Date keys that parse to the same day. Two distinct key strings such as `2024-01-05` and
  `2024-01-05T00:00` make `ToDictionary` in `Leads.Parse()` (Data.cs:33) throw at Program.cs:44,
  and the source stops there. The model does not model that crash: `Report.Run` does not require
  `DistinctDates`, finishes, and flattens both entries. Resource and team names are keys of the
  deserialized dictionaries and so are unique. The model assumes uniqueness
  (`DistinctKeys`) only where a lemma claims it.
- Object identity: pools are values, so aliasing between `lastPool` and the list element is
  modelled as an index update of the list.
- The `Lead` class's declaration is not part of this model. Its fields are taken from their use
  at Program.cs:107-112.
- Flattening.Flatten: its own contract speaks of membership. The multiplicity is stated by
  `FlattenOccurrences` and `FlattenTotals`. The order is given by construction only.
