# Verified model of the fleet planner's hand-written algorithms

The planner hands routing to OR-Tools and geometry to Shapely. What it adds itself are passes
over mutable state: a shortest-path search, queue and airspace scheduling, union-find, calendars,
ledgers, policy checks and a publication protocol. This project restates those passes in Dafny,
loop by loop where the source loops and as classes where the source updates objects, and proves
what they are relied on for.

The modules, from the bottom up:

- `Wrappers`, `Tables`, `Ordering`, `Sums`, `Text`: option values, dictionaries of lists, Python's
  stable `sorted`, sums and counts, string splitting.
- `VisibilityGraph`, `ObstaclePaths`, `Reroute`: Dijkstra with a lazily pruned heap, the path around
  obstacles and the rerouting of a polyline (`core/geometry.py`).
- `SweepLine`, `ChargingQueue`, `Charging`: event sweeps and the charging-bay queue
  (`planning/charging.py`).
- `CorridorColouring`, `TemporalSeparation`, `Airspace`, `AirspaceHolds`, `Deconfliction`,
  `HoldIdentity`: corridor assignment, holds and their publication (`planning/airspace.py`).
- `DisjointSets`, `OperatorGroups`, `GroupBudgets`, `GroupSolve`, `PoolSolve`: operator-sharing
  groups, their time budgets and their sequential solving (`solver/cluster_pool.py`).
- `Calendar`, `FreeCapacity`, `BackupOperators`, `OperatorQualification`, `DepotStock`,
  `MaterialLedger`, `MaterialSettlement`: constraint enforcement (`solver/enforcement.py`) and the
  capacities it scores by (`solver/allocation/scoring.py`).
- `Greedy`: the warm start (`solver/greedy.py`).
- `KeyedUnion`, `Profile`: profile composition (`contracts/profile.py`, `contracts/registry.py`).
- `VersionPolicy`, `SchemaChange`, `SemanticChange`, `Evolution`: the evolution policy
  (`contracts/evolution.py`).
- `Downsampling`, `Assessment`: observation series and error rates (`snapshot/assessment.py`).
- `RunKeys`, `Publication`, `ArtifactStore`, `RunProtocol`: committed runs in the object store
  (`serving/objectstore.py`).

Conventions. Floats and datetimes are `real` (or `int` where the source has epoch ints); `-inf`,
`inf`, an absent deadline and a missing key are `None`. Dictionaries are `map`s; where their order
shows, a list of keys goes with them. Visibility, containment and distance are parameters, as are
the cluster solver and the outlier and fault statistics. Methods are proved against functions or
predicates on values; the lemmas are about those.

Where the code does less than its documentation says, the model follows the code, shows an input
that fails and states the exact condition:

- Adjacent history checks cover all pairs of snapshots with semantic metadata exactly when the
  snapshots carrying it are contiguous (`Evolution.SemanticAllPairsIff`; `Evolution.GapHistory` for
  every other pattern).
- A run listed by its commit marker is complete exactly when paths that normalise to one name carry
  the same bytes and the marker's name is left alone, an empty file after which nothing new follows
  excepted (`Publication.CommitContractIff`; `Publication.MarkerFileListsTooEarly` and
  `Publication.CollidingPathsLoseOne`).
- Runs are published where readers look for them exactly when the subdirectory is in normal form
  and, without a prefix, relative (`RunKeys.PublishedWhereListed`).
- Every task of a cluster is kept or refused, and never both whatever the stock, exactly when no task with a
  positive demand is listed twice (`MaterialSettlement.KeptOrRefusedIff`).
- Airspace holds, which are keyed by task id, reach the right flights in every run of the pass exactly
  when the task ids are distinct, or there is a corridor for every flight, or no separation is
  required (`HoldIdentity.HoldsFaithfulIff`; five flights and the default four corridors in
  `HoldIdentity.SharedTaskIdMovesBoth`).
- The time cap of a group does not bound its budgets, because each is raised to a floor: groups of n
  clusters always stay within the cap exactly when n is 0, or n is 1 and the cap reaches the floor
  (`GroupBudgets.CapKeptIff`). Sharing groups have two clusters at least, so for none of their sizes
  is the cap a bound; `GroupBudgets.BudgetsFit` gives the bound there is.
- Compacting a series keeps its oldest reading, whatever the timestamps and values, exactly when no
  reading that can close the first window repeats its id (`Downsampling.OldestKeptIff`;
  `Downsampling.RepeatedIdLosesOldest`). An over-long series without time span keeps its last
  readings only (`Downsampling.Retained`).
- A free capacity of 0 does not mean that no gap is left: single free seconds between held windows
  are merged away, and the capacity is the share of the longest gap exactly unless that is one second
  and both ends of the horizon are held (`FreeCapacity.GapIsLongest`, `FreeCapacity.ZeroCapacityIff`,
  `FreeCapacity.LoneSecondIsLost`).

The backup scan starts from a score of -1, so it would pass over an operator with a capacity of -1 or
less (`BackupOperators.NegativeCapacityHides`). The planner's capacities lie between 0 and 1
(`BackupOperators.BuiltCapacitiesAreUnit`), and there refusals and dropped tasks are exactly what they
should be (`BackupOperators.RefusedIffQualifiedTaken`, `OperatorQualification.DroppedOnlyIfQualifiedTaken`).

`dafny verify dfyconfig.toml` checks everything.

## Model

| member | source | states |
|---|---|---|
| VisibilityGraph.ShortestPath | src/fl_op/core/geometry.py:232-254 | the search returns a walk from start to end of least total weight over all walks, and nothing exactly when no walk exists |
| VisibilityGraph.LabelIsShortest | src/fl_op/core/geometry.py:236-247 | when the end node is popped or the heap has drained, its label is at most the length of every walk: leaving the loop early loses nothing |
| VisibilityGraph.WalkBound | src/fl_op/core/geometry.py:236-247 | every walk from the start either does not beat the label of its settled end or does not beat the label of some unsettled node |
| VisibilityGraph.Pop | src/fl_op/core/geometry.py:237-241 | an outdated entry is dropped without loss; a current one settles a node never settled before, which bounds the loop |
| VisibilityGraph.Expand | src/fl_op/core/geometry.py:242-247 | relaxing a settled node's edges restores the invariant: every unsettled reached node has its current label queued and predecessors form a tree |
| VisibilityGraph.WalkBack | src/fl_op/core/geometry.py:251-254 | following predecessors ends at the start and gives a walk whose length is the end's label |
| VisibilityGraph.HeapPop | src/fl_op/core/geometry.py:237 | a pop removes one entry of least distance, the lower node on ties |
| ObstaclePaths.CollectObstacles | src/fl_op/core/geometry.py:182-195 | the obstacles are exactly those that rings of three points or more repair to |
| ObstaclePaths.NodeList | src/fl_op/core/geometry.py:208-215 | the nodes are start, end and every obstacle corner, each once |
| ObstaclePaths.BuildAdjacency | src/fl_op/core/geometry.py:217-230 | the adjacency lists represent the visibility graph of those nodes, both ways, with geodesic weights |
| ObstaclePaths.AtLength | src/fl_op/core/geometry.py:257-259 | the polyline length of a node walk is its weight in the graph |
| ObstaclePaths.DirectIsShortest | src/fl_op/core/geometry.py:204-206 | under the triangle inequality no polyline is shorter than the direct line, so the shortcut loses nothing |
| ObstaclePaths.SearchAround | src/fl_op/core/geometry.py:208-254 | the path is a visible walk over corners, no longer than any other visible walk; empty exactly when none exists |
| ObstaclePaths.ShortestPathAround | src/fl_op/core/geometry.py:164-254 | over every obstacle of every ring of three points or more: empty exactly when an endpoint is inside one or no visible walk over corners exists, otherwise a shortest such walk whose legs every obstacle admits; the direct line where nothing is in its way |
| Reroute.ReroutePath | src/fl_op/core/geometry.py:262-277 | every original waypoint is kept in order with a shortest leg between neighbours; every leg is admitted by every obstacle of every ring; empty exactly when one leg is unreachable |
| Reroute.RerouteIsShortest | src/fl_op/core/geometry.py:262-277 | no other visible route through the same waypoints is shorter |
| SweepLine.DepthCounts | src/fl_op/planning/charging.py:259-270 | the depth at an instant is the number of intervals that begin by it and end after it |
| SweepLine.NetIsDepth | src/fl_op/planning/charging.py:262-269 | the sum of events up to an instant is the number of half-open intervals containing it, empty intervals included |
| SweepLine.SweepIsPeak | src/fl_op/planning/charging.py:265-270 | the largest running count over the sorted events is the largest net count over all instants |
| SweepLine.PeakIsDepth | src/fl_op/planning/airspace.py:418-431 | that peak bounds the depth at every instant and is reached at one |
| SweepLine.PeakOverlap | src/fl_op/planning/airspace.py:418-431 | the event sweep returns exactly the maximum number of intervals in force at one instant |
| ChargingQueue.EarliestStarts | src/fl_op/planning/charging.py:153-164 | no feasible schedule with starts in service order on the same number of bays starts any session earlier |
| ChargingQueue.ScheduleIsFeasible | src/fl_op/planning/charging.py:153-164 | the earliest-free-bay schedule is itself feasible: arrivals respected, bays exclusive, starts in service order |
| ChargingQueue.NeverOverlap | src/fl_op/planning/charging.py:158-164 | sessions on one bay never overlap |
| ChargingQueue.StartsOrdered | src/fl_op/planning/charging.py:153-164 | starts follow the service order |
| ChargingQueue.WorkConserving | src/fl_op/planning/charging.py:160-164 | while a session waits every bay is occupied, at every instant from its arrival to its start |
| ChargingQueue.DepthWithinBays | src/fl_op/planning/charging.py:154-164 | at no instant do more sessions charge than there are bays |
| ChargingQueue.UtilisationBound | src/fl_op/planning/charging.py:166-174 | summed charge time is at most bays times any window around it, so utilisation is at most 100 percent |
| Charging.EarliestBay | src/fl_op/planning/charging.py:160 | the chosen bay is free earliest, the lowest index on ties |
| Charging.ServeSession | src/fl_op/planning/charging.py:156-164 | one turn books the session on the earliest bay and moves that bay's free time, no other |
| Charging.ServeInOrder | src/fl_op/planning/charging.py:153-164 | the loop turns the sessions into the earliest-free-bay schedule of their demands |
| Charging.ScheduleHub | src/fl_op/planning/charging.py:147-189 | sessions are served in (arrival, asset) order on earliest-free bays; the bays, two when none are declared, share the declared power or 50 kW equally; each duration is the time its energy takes at that share; the sessions together never draw more than the hub; and every figure of the report is that of the schedule |
| Charging.DrawWithinPower | src/fl_op/planning/charging.py:149-164 | at no instant do the charging sessions together draw more than the hub has |
| Charging.PeakQueueDepth | src/fl_op/planning/charging.py:236-256 | the counter is exactly the greatest number of sessions waiting at one instant |
| Charging.MaxConcurrent | src/fl_op/planning/charging.py:259-270 | the counter is exactly the greatest number of sessions charging at one instant |
| Charging.HubPeakWithinBays | src/fl_op/planning/charging.py:259-270 | for one hub that peak is at most the number of bays |
| Charging.WaitingDepth | src/fl_op/planning/charging.py:244-249 | the waiting intervals contain an instant as often as sessions wait at it |
| Charging.WindowUtilisation | src/fl_op/planning/charging.py:171-174 | the reported window makes utilisation at most 100 percent |
| CorridorColouring.SharedPairsBound | src/fl_op/planning/airspace.py:344-368 | the corridor count times the number of same-corridor conflict pairs is at most the number of conflict pairs |
| CorridorColouring.SharingNeedsDegree | src/fl_op/planning/airspace.py:344-368 | a same-corridor conflict pair joins two flights with at least as many conflicting neighbours as there are corridors |
| CorridorColouring.FewNeighboursSeparate | src/fl_op/planning/airspace.py:344-368 | if every flight has fewer neighbours than there are corridors, no conflict pair shares one |
| CorridorColouring.EveryFlightAssigned | src/fl_op/planning/airspace.py:353-368 | every flight gets a corridor below the count |
| CorridorColouring.ChosenIsLight | src/fl_op/planning/airspace.py:360-367 | the corridor chosen holds at most its share of the already coloured conflict partners |
| Airspace.ConflictPairs | src/fl_op/planning/airspace.py:288-319 | the pairs are exactly the flights closer than the separation whose windows, widened by the buffer, overlap, each once |
| Airspace.NeighbourSets | src/fl_op/planning/airspace.py:344-347 | the neighbour sets are those of the conflict graph |
| Airspace.DegreeOrder | src/fl_op/planning/airspace.py:349-352 | flights are ordered by decreasing degree, then entry, then task id, then position |
| Airspace.UsedByNeighbor | src/fl_op/planning/airspace.py:354-359 | the counts per corridor are the numbers of coloured neighbours in it |
| Airspace.FirstFreeCorridor | src/fl_op/planning/airspace.py:411-415 | the lowest corridor no neighbour uses, and none only when all are used |
| Airspace.LeastContended | src/fl_op/planning/airspace.py:361-367 | the corridor with fewest neighbours, the lowest on ties |
| Airspace.AssignCorridors | src/fl_op/planning/airspace.py:332-368 | the flights end greedily coloured in that order and nothing else about them changes |
| AirspaceHolds.SameCorridorPairs | src/fl_op/planning/airspace.py:383-385 | the pairs kept are exactly the conflict pairs sharing a corridor |
| AirspaceHolds.HoldOne | src/fl_op/planning/airspace.py:398-407 | one flight is held until every earlier contender has cleared by the buffer, capped by its slack, and no other flight moves |
| AirspaceHolds.HoldCorridor | src/fl_op/planning/airspace.py:396-408 | every member of a corridor ends held right and flights of other corridors do not move |
| AirspaceHolds.ApplyTemporalSeparation | src/fl_op/planning/airspace.py:371-408 | every flight ends held exactly as long as needed or as its slack allows |
| TemporalSeparation.DeadlineSlack | src/fl_op/planning/airspace.py:445-456 | held by its slack an on-time flight ends exactly at its deadline; a committed or late flight has none, and only one without a deadline has no limit |
| TemporalSeparation.DelayWithinSlack | src/fl_op/planning/airspace.py:406-407 | every delay lies between 0 and the slack |
| TemporalSeparation.DeadlineKept | src/fl_op/planning/airspace.py:445-456 | frozen flights do not move, on-time flights stay on time, late ones are not held |
| TemporalSeparation.ResidualOnlyIfCapped | src/fl_op/planning/airspace.py:398-407 | a pair still overlapping means the later flight got all its slack and needed more |
| TemporalSeparation.UnboundedSlackSeparates | src/fl_op/planning/airspace.py:398-407 | with unbounded slack no contending pair still overlaps |
| TemporalSeparation.HoldIsNeeded | src/fl_op/planning/airspace.py:399-407 | a positive hold ends no later than some earlier contender clears |
| TemporalSeparation.HoldsAreUnique | src/fl_op/planning/airspace.py:394-408 | the holds do not depend on the order corridors are visited |
| Deconfliction.CountOutcomes | src/fl_op/planning/airspace.py:203-213 | the three counters count the pairs of each outcome |
| Deconfliction.TallyAddsUp | src/fl_op/planning/airspace.py:203-213 | corridor-separated, time-separated and residual pairs add up to the conflict pairs |
| Deconfliction.PairsAreSafe | src/fl_op/planning/airspace.py:203-213 | any two flights are apart in space, in their planned times, by corridor or in their shifted times, or else one of them was held for all the slack it has |
| Deconfliction.ResidualWitness | src/fl_op/planning/airspace.py:203-213 | the residual count is positive exactly when a residual pair exists |
| Deconfliction.NoDeadlinesNoResidual | src/fl_op/planning/airspace.py:371-408 | without deadlines no conflict pair is residual |
| Deconfliction.BuildFlights | src/fl_op/planning/airspace.py:168-194 | one fresh flight for exactly the assignments that fly, frozen and pinned ones included, in order: task id, entry at the planned start less the inbound time, exit at the planned finish, and the slack of the deadline |
| Deconfliction.Deconflict | src/fl_op/planning/airspace.py:141-253 | the whole pass over a plan's assignments: the flights of exactly those that fly, the true conflict graph, greedy colouring, right holds, every pair kept safely apart or out of slack, the holds dictionary, no report exactly when nothing flies, and a report whose figures are counts and sums over the flights |
| Deconfliction.CollectHolds | src/fl_op/planning/airspace.py:248-252 | the holds dictionary has exactly the positive delays by task id, the last flight of an id winning |
| Deconfliction.ApplyAirspaceHolds | src/fl_op/planning/airspace.py:110-138 | each assignment has both planned times shifted by its task's hold unless frozen or pinned, in order, and nothing else changes |
| Deconfliction.PublishedIsDeconflicted | src/fl_op/planning/airspace.py:110-138 | with distinct task ids the published windows are the deconflicted ones, frozen work stays put and deadlines hold |
| HoldIdentity.HoldsFaithfulIff | src/fl_op/planning/airspace.py:248-252 | the holds reach the right flights in every run of the pass exactly when task ids are distinct, or flights are no more than corridors, or the required separation is not positive |
| HoldIdentity.SharedTaskIdMovesBoth | src/fl_op/planning/airspace.py:248-252 | a run with the default four corridors where one flight's hold also moves another flight of the same task id |
| DisjointSets.Sets.Find | src/fl_op/solver/cluster_pool.py:624-629 | find terminates, returns the node's root and changes no node's root; an unknown node becomes its own root |
| DisjointSets.Sets.Union | src/fl_op/solver/cluster_pool.py:631-632 | exactly the second tree's nodes move to the first tree's root |
| DisjointSets.RepIsRoot | src/fl_op/solver/cluster_pool.py:624-629 | the recorded representative is where the parent chain ends |
| DisjointSets.HalvingKeepsRoots | src/fl_op/solver/cluster_pool.py:627 | pointing a node at its grandparent keeps every root |
| DisjointSets.LinkMerges | src/fl_op/solver/cluster_pool.py:632 | hanging one root under another merges exactly the two trees |
| OperatorGroups.UnionAddsLink | src/fl_op/solver/cluster_pool.py:631-640 | after a union, roots denote the old links and the new one |
| OperatorGroups.SameRepIffLinked | src/fl_op/solver/cluster_pool.py:634-646 | two clusters have one root exactly when a chain of unions joins them |
| OperatorGroups.UnitedIsSharing | src/fl_op/solver/cluster_pool.py:634-640 | uniting each operator's claimants links exactly the clusters joined by shared operators |
| OperatorGroups.OperatorSharingGroups | src/fl_op/solver/cluster_pool.py:620-647 | the groups are disjoint and are exactly the classes of size two or more of the closure of "list a common operator", each cluster as often as it was given |
| OperatorGroups.GroupsAreClasses | src/fl_op/solver/cluster_pool.py:642-647 | collecting clusters by root and keeping groups of two or more yields those classes |
| OperatorGroups.GroupsAreDistinct | src/fl_op/solver/cluster_pool.py:642-647 | with distinct cluster ids no group repeats a cluster |
| OperatorGroups.SeparateGroupsShareNothing | src/fl_op/solver/cluster_pool.py:433 | two clusters listing one operator are in one group, so different groups share none |
| GroupBudgets.Budgets | src/fl_op/solver/cluster_pool.py:463-483 | without a cap every cluster gets the per-cluster limit, with one the cap's truncated share by penalty times difficulty, raised to the floor |
| GroupBudgets.SharesFit | src/fl_op/solver/cluster_pool.py:476-481 | the truncated shares together never exceed the cap |
| GroupBudgets.BudgetsFit | src/fl_op/solver/cluster_pool.py:463-483 | no cluster gets less than the floor, the sum is at most the cap plus the floor per cluster, and at most the cap when every share reaches the floor |
| GroupBudgets.CapKeptIff | src/fl_op/solver/cluster_pool.py:430-433 | every group of n clusters stays within a positive cap exactly when n is 0, or n is 1 and the cap is no lower than the floor |
| GroupBudgets.CapCanBeExceeded | src/fl_op/solver/cluster_pool.py:482 | an input whose budgets sum to more than the cap |
| GroupSolve.OperatorIntervals | src/fl_op/solver/cluster_pool.py:650-663 | the intervals per operator are exactly the positive, readable ones the dispatch commits |
| GroupSolve.MergeHeldWindows | src/fl_op/solver/cluster_pool.py:675-685 | the merge holds both dictionaries' windows in fresh lists and changes neither argument |
| GroupSolve.ExtendAll | src/fl_op/solver/cluster_pool.py:529-531 | feeding forward appends the committed intervals to the held lists in place |
| GroupSolve.SolveGroup | src/fl_op/solver/cluster_pool.py:502-532 | each plan is the solver's answer under exactly the base holds and what earlier clusters of the group committed; if the solver keeps clear of held windows, commitments to an operator an earlier cluster listed never meet that cluster's, nor the base holds |
| PoolSolve.SolveOrdered | src/fl_op/solver/cluster_pool.py:443-460 | one group, solved with one call per member by falling penalty, an absent one being 0, and by id on ties: no two of its clusters ever keep a commonly listed operator busy at one instant |
| PoolSolve.UnionIsApart | src/fl_op/solver/cluster_pool.py:420-460 | groups solved apart stay apart: what holds inside groups holds across them |
| PoolSolve.Solve | src/fl_op/solver/cluster_pool.py:276-297 | the solver is called exactly once for every cluster and its answer is the cluster's plan; of two clusters linked by shared operators the one of higher penalty is solved first; over the whole pool no two clusters keep a commonly listed operator busy at one instant, and every plan clears the base holds |
| PoolSolve.ClaimsAreKeptApart | src/fl_op/solver/enforcement.py:387-397 | two clusters that claimed one operator for a common instant are both stamped, grouped, and end with plans that never meet on it |
| Greedy.BeforeMeans | src/fl_op/solver/greedy.py:313-323 | orders with candidates first, then fewer implements, larger regret, better best score and lower id |
| Calendar.OverlapIsSharedInstant | src/fl_op/solver/enforcement.py:444-452 | the overlap test is true exactly when the two calendars share an instant |
| Calendar.IntervalsOverlap | src/fl_op/solver/enforcement.py:444-452 | the nested loops decide overlap |
| Calendar.MergeBusy | src/fl_op/solver/enforcement.py:433-441 | merging denotes exactly the same instants by sorted, separated, non-empty spans |
| Calendar.CanonicalUnique | src/fl_op/solver/enforcement.py:433-441 | that form is unique: equal instants mean equal lists |
| FreeCapacity.MergeIntervals | src/fl_op/solver/restrictions.py:47-55 | merging gives spans at least two seconds apart that cover the windows and, beyond them, only single seconds between two of them |
| FreeCapacity.LargestFreeGap | src/fl_op/solver/allocation/scoring.py:64-84 | over such spans the gap returned is the length of the longest free run of the horizon |
| FreeCapacity.GapIsLongest | src/fl_op/solver/allocation/scoring.py:49-60 | that is the longest run free of the windows themselves, except where it is one second and both ends of the horizon are held |
| FreeCapacity.BuildFreeCapacity | src/fl_op/solver/allocation/scoring.py:31-61 | every held asset gets that share of the horizon, between 0 and 1, and no other asset an entry |
| FreeCapacity.ZeroCapacityIff | src/fl_op/solver/allocation/scoring.py:42-43 | a capacity is 0 exactly when both ends of the horizon are held and every free run is one second |
| FreeCapacity.LoneSecondIsLost | src/fl_op/solver/allocation/scoring.py:49-60 | windows with a free second between them and a capacity of 0 |
| BackupOperators.DemandWindow | src/fl_op/solver/enforcement.py:403-430 | the demand is exactly the workable instants inside the horizon, or the whole horizon when timing is unknown |
| BackupOperators.Ledger.Scan | src/fl_op/solver/enforcement.py:478-489 | the scan finds the freest qualified operator free over the demand and the freest already committed, first on ties |
| BackupOperators.Ledger.Claim | src/fl_op/solver/enforcement.py:455-495 | a claim follows the scan's decision and the calendars go on denoting exactly the instants claimed |
| BackupOperators.ClaimIsFreest | src/fl_op/solver/enforcement.py:478-495 | a claim goes to the freest candidate, the first on ties; an overlap is shared only when sharing is on and no candidate is free |
| BackupOperators.ClaimIsDisjoint | src/fl_op/solver/enforcement.py:484-495 | a claim that is not an overlap share reserves only instants nobody reserved on that operator before |
| BackupOperators.NeverDoubleBooked | src/fl_op/solver/enforcement.py:455-495 | with overlap sharing off no operator is ever claimed twice for one instant, over the whole pass |
| BackupOperators.ChosenIsQualified | src/fl_op/solver/enforcement.py:478-483 | a chosen backup is certified for the operation and nobody's prime operator |
| BackupOperators.RefusedIffNoneFree | src/fl_op/solver/enforcement.py:478-495 | with sharing off a demand is refused exactly when every qualified operator with capacity above -1 is reserved at some instant of it |
| BackupOperators.BuiltCapacitiesAreUnit | src/fl_op/solver/allocation/scoring.py:60 | capacities as the planner builds them lie between 0 and 1 |
| BackupOperators.RefusedIffQualifiedTaken | src/fl_op/solver/enforcement.py:478-495 | with such capacities and sharing off a demand is refused exactly when every certified operator who is nobody's prime one is reserved at some instant of it |
| BackupOperators.NegativeCapacityHides | src/fl_op/solver/enforcement.py:476-489 | with a capacity of -1, which the planner never builds, a free qualified operator would be passed over |
| OperatorQualification.GatherNeeds | src/fl_op/solver/enforcement.py:326-336 | each operation's list has exactly the tasks that need a backup for it |
| OperatorQualification.ClaimBackups | src/fl_op/solver/enforcement.py:337-361 | one call per operation is made with that operation's demand, and claimants and overlaps record the answers |
| OperatorQualification.Assign | src/fl_op/solver/enforcement.py:363-383 | kept and dropped tasks, in order, and the pairing of tasks with backups follow from the answers |
| OperatorQualification.SelectPartitions | src/fl_op/solver/enforcement.py:365-384 | each task is kept or dropped exactly once |
| OperatorQualification.OwnTasksStay | src/fl_op/solver/enforcement.py:335-338 | what the cluster's own operator is certified for stays, without a backup |
| OperatorQualification.UnknownIsDropped | src/fl_op/solver/enforcement.py:365-383 | a task that is not known, or whose operation is not, is dropped |
| OperatorQualification.KeptIsCovered | src/fl_op/solver/enforcement.py:365-386 | a kept task has the cluster's operator or a certified backup that is no cluster's prime operator |
| OperatorQualification.DroppedOnlyIfNoneFree | src/fl_op/solver/enforcement.py:369-383 | with sharing off, a known-operation task is dropped only if every qualified operator was reserved at some instant its rows need |
| OperatorQualification.DroppedOnlyIfQualifiedTaken | src/fl_op/solver/enforcement.py:369-383 | with the planner's capacities that covers every certified operator who is nobody's prime one |
| OperatorQualification.Qualify | src/fl_op/solver/enforcement.py:318-386 | one cluster ends with its kept tasks and pairings as its claims decided |
| OperatorQualification.Stamp | src/fl_op/solver/enforcement.py:390-397 | exactly the claimants of overlap-shared operators are stamped with them |
| OperatorQualification.ApplyOperatorQualification | src/fl_op/solver/enforcement.py:272-400 | the whole pass: exactly the clusters with an allocated prime or an operator are processed and get their outcome, others are untouched, the refusals in order and the stamps, all against one log of claims |
| DepotStock.Conservation | src/fl_op/solver/enforcement.py:546-549 | stock is what remains plus what was charged; it is never overdrawn and a negative stock is never charged |
| DepotStock.RefusedNeverFits | src/fl_op/solver/enforcement.py:546-570 | a refused demand does not fit even what is left at the end |
| DepotStock.OvertakenOnlyBySmaller | src/fl_op/solver/enforcement.py:541-570 | a demand admitted after a refusal is strictly smaller than the refused one |
| DepotStock.RepeatedDemandSplits | src/fl_op/solver/enforcement.py:541-570 | for a positive demand listed twice some stock charges the first and refuses the second |
| DepotStock.RoundedClose | src/fl_op/solver/enforcement.py:556 | a recorded quantity differs from its demand by at most 0.005 |
| DepotStock.RoundedIsHundredths | src/fl_op/solver/enforcement.py:556 | a recorded quantity is a whole number of hundredths, the nearest one to its demand |
| MaterialLedger.QueueByPenalty | src/fl_op/solver/enforcement.py:538 | demands are served by falling penalty |
| MaterialLedger.QueueIsDemands | src/fl_op/solver/enforcement.py:529-542 | a queue holds exactly one demand per task that needs material: the per-hectare rate times its area |
| MaterialLedger.TiesKeepOrder | src/fl_op/solver/enforcement.py:538 | demands of one penalty are served in task order |
| MaterialLedger.StockIsLast | src/fl_op/solver/enforcement.py:523 | a depot listed more than once has what was listed last |
| MaterialLedger.Serve | src/fl_op/solver/enforcement.py:541-570 | one queue: admissions, refusals, charges and the depot's remaining stock; other depots are untouched |
| MaterialLedger.ChargedInTurn | src/fl_op/solver/enforcement.py:541-570 | charges come in the order of the queue, the rest of it charged from what its first part leaves |
| MaterialLedger.ChargeCluster | src/fl_op/solver/enforcement.py:527-571 | the cluster keeps, in order, exactly the tasks that pass or were admitted |
| MaterialLedger.ApplyMaterialLimits | src/fl_op/solver/enforcement.py:506-574 | over all clusters in turn: kept tasks, refusals and one provisional reservation per charge, each depot's stock carried on |
| MaterialSettlement.ChargeIsDemand | src/fl_op/solver/enforcement.py:541-560 | every charge is the positive demand of a task of some cluster, made on that cluster's depot |
| MaterialSettlement.VerdictMeans | src/fl_op/solver/enforcement.py:546-570 | a demand is charged exactly when it fits what the charges before it have left, and refused exactly when it does not |
| MaterialSettlement.StockConserved | src/fl_op/solver/enforcement.py:523-570 | for every depot over all clusters, initial stock is remaining stock plus admitted demand, never overdrawn |
| MaterialSettlement.NoTaskLost | src/fl_op/solver/enforcement.py:540-571 | every task is kept or refused |
| MaterialSettlement.StaysIff | src/fl_op/solver/enforcement.py:540-571 | a task stays exactly when it needs no material or one of its demands was admitted |
| MaterialSettlement.KeptOrRefusedIff | src/fl_op/solver/enforcement.py:540-571 | never both, whatever the stock, exactly when no task with positive demand is listed twice |
| MaterialSettlement.Finalize | src/fl_op/solver/enforcement.py:600-620 | each reservation is confirmed over its dispatched window, or released, exactly as its task was dispatched or not |
| MaterialSettlement.DispatchedIff | src/fl_op/solver/enforcement.py:611 | a task has a package exactly when some dispatch row names it |
| MaterialSettlement.ConfirmedWithinStock | src/fl_op/solver/enforcement.py:600-620 | confirmed demand never exceeds the depot's stock, and recorded quantities exceed it by rounding alone |
| MaterialSettlement.SettledWithinStock | src/fl_op/solver/enforcement.py:600-620 | the same read off the settled reservations: the demand of those with status confirmed at a depot stays within its stock |
| MaterialSettlement.ChargeAndSettle | src/fl_op/solver/enforcement.py:506-620 | charging a plan and settling it against any dispatch confirms no more than each depot's stock, up to rounding |
| Greedy.BeforeTotal | src/fl_op/solver/greedy.py:313-323 | the priority orders any two orders, and ties only rows of one order id |
| Greedy.GreedyAssign | src/fl_op/solver/greedy.py:326-346 | in priority order each order gets its first candidate whose implement is free, or nothing because none is |
| Greedy.NoImplementTwice | src/fl_op/solver/greedy.py:341-346 | no implement is used twice and every order gets one of its own candidates |
| Greedy.LosesOnlyToPriority | src/fl_op/solver/greedy.py:338-346 | what an order would have preferred went to an order of strictly better priority |
| Greedy.ScarceLosesOnlyToScarcer | src/fl_op/solver/greedy.py:331-337 | an order left out lost every candidate to an order with no more implements to choose from |
| Greedy.HalfOptimal | src/fl_op/solver/greedy.py:338-346 | any assignment with distinct implements serves at most twice as many orders |
| Greedy.GreedyUnique | src/fl_op/solver/greedy.py:338-346 | those promises determine the assignment |
| KeyedUnion.UnionPreservingOrder | src/fl_op/contracts/profile.py:341-348 | the loop computes the keyed union |
| KeyedUnion.UnionAdds | src/fl_op/contracts/profile.py:341-348 | a union is the primary list and then, in order, exactly the entries of the other whose key did not occur before |
| KeyedUnion.UnionAssociative | src/fl_op/contracts/profile.py:341-348 | unions associate, repetitions included |
| KeyedUnion.UnionExtends | src/fl_op/contracts/profile.py:341-348 | the primary list comes first, unchanged |
| KeyedUnion.UnionAddsOnce | src/fl_op/contracts/profile.py:343-347 | secondary entries are appended in order, once per unseen key |
| KeyedUnion.UnionKeys | src/fl_op/contracts/profile.py:341-348 | the union has the keys of both lists and no other |
| KeyedUnion.MergeConstraints | src/fl_op/contracts/profile.py:351-364 | the merge lists each id once, in first-appearance order, with the entry that settles its conflict |
| KeyedUnion.WinnerIs | src/fl_op/contracts/profile.py:356-363 | the settling entry carries the id and is enforced exactly when some entry of the id is |
| KeyedUnion.WinnerSettles | src/fl_op/contracts/profile.py:356-363 | the settling entry is the first enforced one of its id, and the first one where none is enforced |
| KeyedUnion.MergeAssociative | src/fl_op/contracts/profile.py:351-364 | merging constraints is associative, conflicts included |
| Profile.Compose | src/fl_op/contracts/profile.py:292-338 | the composition section by section, scalars the primary's, lists in keyed union, constraints settled, maps layered, limits the lower ones |
| Profile.ComposedIsComposite | src/fl_op/contracts/profile.py:292-338 | the same in terms of the two profiles' entries alone |
| Profile.ComposeAssociative | src/fl_op/contracts/profile.py:309-310 | composition is associative on every section |
| Profile.BracketingIrrelevant | src/fl_op/contracts/profile.py:309-310 | however a list of profiles is bracketed, the composite equals the left fold |
| Profile.ComposeEnforces | src/fl_op/contracts/profile.py:302-303 | a composite enforces exactly what one of the two enforces |
| Profile.FoldEnforces | src/fl_op/contracts/profile.py:289-290 | a fold enforces exactly the union of its members' enforced ids |
| Profile.FoldLimits | src/fl_op/contracts/profile.py:205-228 | each weather limit is the minimum over the members and coverage is their disjunction |
| Profile.FirstWins | src/fl_op/contracts/profile.py:165-186 | in a layered map the first member with a key decides it, and the keys are the union |
| Profile.FoldSections | src/fl_op/contracts/profile.py:311-338 | in a fold, scalars are the first member's and every map section is layered |
| Profile.DomainProfileIds | src/fl_op/contracts/registry.py:390-403 | the ids are exactly the non-empty ones the domains declare, no two alike, and earlier ones are declared by an earlier domain |
| Profile.DomainOrderUnique | src/fl_op/contracts/registry.py:390-403 | no other list is so |
| Profile.CompositeProfile | src/fl_op/contracts/registry.py:405-422 | none exactly when no domain declares a profile, an unknown id exactly when one is unregistered, otherwise the fold |
| VersionPolicy.ParseVersion | src/fl_op/contracts/evolution.py:381-389 | the loops compute the parse: missing parts 0, non-digits skipped |
| VersionPolicy.ParseRender | src/fl_op/contracts/evolution.py:381-389 | every version survives being written and parsed |
| VersionPolicy.OnlyDigitsCount | src/fl_op/contracts/evolution.py:385 | anything but a digit is skipped |
| VersionPolicy.PlaceValue | src/fl_op/contracts/evolution.py:386 | numbers are read in tens |
| VersionPolicy.ShortAndLong | src/fl_op/contracts/evolution.py:381-389 | missing parts are zero and parts after the third do not matter |
| VersionPolicy.PolicyErrorsMean | src/fl_op/contracts/evolution.py:403-434 | which of the four errors a step gets, each under its exact condition, and never two |
| VersionPolicy.AllowedMeans | src/fl_op/contracts/evolution.py:392-434 | a step passes exactly when versions do not go back, nothing breaks within a major and nothing changes within a minor version |
| VersionPolicy.AllowedComposes | src/fl_op/contracts/evolution.py:392-434 | two passing steps make a passing step, for any classifier whose non-breaking and identical changes compose |
| SchemaChange.ClassifyChange | src/fl_op/contracts/evolution.py:330-378 | identical exactly for equal fields, breaking exactly when a field is lost, altered or added as required |
| SchemaChange.ChangeComposes | src/fl_op/contracts/evolution.py:330-378 | non-breaking and identical schema changes are transitive |
| SemanticChange.DiffMetricCodes | src/fl_op/contracts/evolution.py:200-222 | breaking exactly when a code is lost or retargeted, backward when one is added |
| SemanticChange.FieldComposes | src/fl_op/contracts/evolution.py:281-325 | non-breaking and identical field changes are transitive for every kind of field |
| SemanticChange.FieldsMean | src/fl_op/contracts/evolution.py:281-325 | a block's fields change compatibly exactly when no set unit or quantity kind is lost, no permitted value leaves, no metric code is lost or retargeted and every other field is as it was |
| SemanticChange.ClassifyBlock | src/fl_op/contracts/evolution.py:270-325 | a block breaks exactly when a set unit or quantity kind is lost, a permitted use leaves, a metric code is lost or retargeted, or any other field differs; it is identical exactly when no field's meaning differs |
| SemanticChange.ClassifySemanticChange | src/fl_op/contracts/evolution.py:234-327 | breaking exactly when a block is lost or so changes, identical exactly when no block is lost, new or different |
| SemanticChange.ChangeComposes | src/fl_op/contracts/evolution.py:234-327 | non-breaking and identical drift is transitive |
| Evolution.StepMeans | src/fl_op/contracts/evolution.py:591-619 | what passing means for two schemas and for two mappings: versions do not go back, within a major version nothing breaks, within a minor one nothing differs |
| Evolution.OldestFirst | src/fl_op/contracts/evolution.py:591-619 | the errors of a history are those of its older part and then those of the rest |
| Evolution.PairwiseHistoryErrors | src/fl_op/contracts/evolution.py:591-619 | the errors are those of every adjacent step, oldest first, and there is none exactly when every step is allowed |
| Evolution.SchemaAllPairs | src/fl_op/contracts/evolution.py:591-619 | if adjacent steps pass, every pair of snapshots passes |
| Evolution.ConsumerIsCovered | src/fl_op/contracts/evolution.py:5-13 | consumers any number of versions behind see no break within a major and no change within a minor version |
| Evolution.SemanticAllPairsIff | src/fl_op/contracts/evolution.py:603-618 | for semantic metadata adjacent checks, alone or together with the schema's, cover all pairs exactly when the snapshots carrying it are contiguous |
| Evolution.GapHistory | src/fl_op/contracts/evolution.py:603-618 | for every pattern with a gap, a history that passes every check and drops a block across it |
| Evolution.FreezeRecords | src/fl_op/contracts/evolution.py:622-655 | freezing keeps the history, ends with the snapshot, is idempotent, and passes exactly when the new step is allowed |
| Evolution.RunsArePoliced | src/fl_op/contracts/evolution.py:752-777 | over any run of freezes the committed history passes exactly when every review step was allowed |
| Evolution.SemanticDriftErrors | src/fl_op/contracts/evolution.py:556-588 | no error exactly when the policy allows the step and the mapping semantics are the reviewed ones |
| Evolution.CheckContract | src/fl_op/contracts/evolution.py:682-724 | the errors listed, in order; a contract passes exactly when its history extended by the current snapshot is allowed step by step and its mapping is reviewed |
| Evolution.CheckedCoversAll | src/fl_op/contracts/evolution.py:682-724 | a passing contract is allowed against every reviewed snapshot: its schema always, its metadata when the snapshots carrying any are contiguous |
| Downsampling.MinMax | src/fl_op/snapshot/assessment.py:202-204 | the extremes of a window's values |
| Downsampling.WindowRepresentative | src/fl_op/snapshot/assessment.py:195-208 | a window's last reading with the window's extremes, mean and size |
| Downsampling.RecentFilters | src/fl_op/snapshot/assessment.py:171-173 | exactly the readings of the last fourteen days and those without a timestamp are kept, in order |
| Downsampling.BucketsFollowTime | src/fl_op/snapshot/assessment.py:184-188 | a reading of a later window is later |
| Downsampling.BucketMeans | src/fl_op/snapshot/assessment.py:184-187 | window b begins b widths after the start and lasts one width, the last without end |
| Downsampling.Downsample | src/fl_op/snapshot/assessment.py:182-190 | one representative per non-empty window, in window order, no reading unrepresented |
| Downsampling.Retained | src/fl_op/snapshot/assessment.py:159-192 | recent readings as they are, the last ones of a series without span, or the compact form |
| Downsampling.CompactShape | src/fl_op/snapshot/assessment.py:176-192 | at most limit + 1 readings in time order, ending with the series' last and beginning with its first unless that one's id is repeated |
| Downsampling.OldestKeptIff | src/fl_op/snapshot/assessment.py:167-169 | over every choice of timestamps and values the oldest reading survives exactly when no reading that can close the first window repeats its id |
| Downsampling.RepeatedIdLosesOldest | src/fl_op/snapshot/assessment.py:189-191 | a series whose oldest reading is lost to another of the same id |
| Downsampling.ExtremesSurvive | src/fl_op/snapshot/assessment.py:167-169 | the window extremes enclose every value and are values of the series, so its global extremes survive |
| Assessment.ContractOfMeans | src/fl_op/snapshot/assessment.py:148-149 | a reading's contract is the part of its reference before the first colon, all of it where there is none |
| Assessment.FutureMeans | src/fl_op/snapshot/assessment.py:211-220 | a reading is from the future when it is more than five minutes ahead of the reference time |
| Assessment.AssessNumeric | src/fl_op/snapshot/assessment.py:331-395 | one numeric series: outliers leave, a suspected series is wholly bad, and each kept reading's confidence |
| Assessment.ConfidenceIsGoodShare | src/fl_op/snapshot/assessment.py:358-395 | confidence never exceeds the share of readings not counted bad |
| Assessment.ConfidenceIs | src/fl_op/snapshot/assessment.py:358-394 | a kept reading's confidence is the least of the share of good readings, its flag's factor and its own, and the bad readings are the outliers or all of a suspected series |
| Assessment.AssessSeries | src/fl_op/snapshot/assessment.py:279-395 | one series: future and flagged readings leave and count as bad under their own contract, the rest is retained and assessed under the first numeric one's |
| Assessment.SeriesMeans | src/fl_op/snapshot/assessment.py:313-394 | categorical readings pass with the lesser of flag factor and own confidence, worthless flags leave, and every other numeric reading goes through the statistics, all in order |
| Assessment.RetainedAreCounted | src/fl_op/snapshot/assessment.py:306-331 | every retained numeric reading is counted, and counted once |
| Assessment.AssessObservations | src/fl_op/snapshot/assessment.py:248-402 | every reading's series is assessed once, the counters hold exactly the series' entries, and the rates are bad over counted, each in [0, 1] |
| Assessment.BadWithinCounted | src/fl_op/snapshot/assessment.py:303-373 | a contract's bad count never exceeds its total |
| Assessment.RatesInUnit | src/fl_op/snapshot/assessment.py:398-402 | every error rate is in [0, 1], and 1 exactly when all counted readings are bad |
| RunKeys.KeyRoundTrip | src/fl_op/serving/objectstore.py:115-123 | key and stripped path determine each other |
| RunKeys.SafeRelMeans | src/fl_op/serving/objectstore.py:89-93 | a path is refused exactly when it is absolute or has a part ".."; otherwise its normal form has the parts that count, in order |
| RunKeys.PosixMeans | src/fl_op/serving/objectstore.py:116 | a path in normal form is its root, one slash or exactly two, and the parts that count, in order |
| RunKeys.TrimSlashesMeans | src/fl_op/serving/objectstore.py:85-86 | normalising a prefix takes all slashes off both ends and nothing else |
| RunKeys.PublishedWhereListed | src/fl_op/serving/objectstore.py:115-127 | publishers put a run where readers look for it exactly when the subdirectory is in normal form and, without a prefix, relative |
| RunKeys.CommitsIff | src/fl_op/serving/objectstore.py:129-133 | a key commits a run exactly when it is the marker directly under that run's directory |
| RunKeys.DirKeyInjective | src/fl_op/serving/objectstore.py:182-185 | files of different slash-free run ids never share a key |
| Publication.CommitContractIff | src/fl_op/serving/objectstore.py:175-185 | a run visible by its marker always has every file with its own bytes exactly when colliding paths carry the same bytes and the marker's name is left alone |
| Publication.MarkerMeansFinal | src/fl_op/serving/objectstore.py:175-185 | and from the moment the marker is visible nothing about such a run changes |
| Publication.MarkerFileListsTooEarly | src/fl_op/serving/objectstore.py:183-185 | an input that is listed before its schedule is there |
| Publication.CollidingPathsLoseOne | src/fl_op/serving/objectstore.py:183-184 | an input of two spellings of one path whose finished run has lost a file |
| Publication.FinalHolds | src/fl_op/serving/objectstore.py:183-185 | the finished run holds every file with its bytes exactly when colliding paths agree and a file of the marker's name is empty |
| ArtifactStore.Client.ListKeys | src/fl_op/serving/objectstore.py:76-82 | the keys with the prefix, sorted, each once |
| ArtifactStore.PublishRun | src/fl_op/serving/objectstore.py:167-185 | files in order, then the marker, are put over the run's directory and nothing else changes; an unsafe path stops before the marker |
| ArtifactStore.ListRunIds | src/fl_op/serving/objectstore.py:125-134 | the ids are exactly the runs directly under the directory that carry their marker, sorted, each once |
| ArtifactStore.Materialize | src/fl_op/serving/objectstore.py:155-162 | everything listed becomes local, what was local stays, and new files have the store's bytes |
| RunProtocol.StepInv | src/fl_op/serving/objectstore.py:155-185 | every step of every publisher and reader keeps the protocol invariant |
| RunProtocol.StoreGrows | src/fl_op/serving/objectstore.py:183-185 | no step changes or removes an object |
| RunProtocol.ListedIsComplete | src/fl_op/serving/objectstore.py:125-134 | in any interleaving a run listed once has all its files with their final bytes for ever after, and stays listed |
| RunProtocol.MaterialisedIsFinal | src/fl_op/serving/objectstore.py:155-162 | a materialised file equals the store's bytes now and later, even when copied before the commit |
| RunProtocol.WholeRunMaterialised | src/fl_op/serving/objectstore.py:142-162 | a materialisation begun after its run was listed leaves the whole run locally |

## Left out

- OR-Tools routing, CP-SAT pre-allocation and the cluster solver: only the assumption that a solve keeps clear of its held windows (`GroupSolve.KeepsClear`) is used.
- Shapely, pyproj and haversine: visibility, containment and distance are parameters; for the optimality of paths they are assumed symmetric and, for the direct-line shortcut, to satisfy the triangle inequality.
- Polygon repair: a parameter gives the obstacles of a ring, and rings of fewer than three points give none.
- The heap is a multiset with a least-entry pop; `heapq`'s array layout is not modelled.
- Floating-point rounding, NaN and infinities beyond the options named above; `round` only where a quantity is recorded.
- Rounding of report figures, KPI dictionaries over several hubs, detail strings, findings, watermarks, drift verdicts, logging and JSON, beyond the counts and figures stated.
- Flight paths, inbound travel times and corridor altitudes: inbound time, deadline and lateral distance are inputs per assignment or pair.
- Overlaps that holds create between flights outside the original conflict pairs: the source does not look at them either.
- Energy demands and the grouping of sessions by hub: one hub's sessions are the input.
- Process pools, timeouts, crashed workers and telemetry; groups are solved one after another, which their independence allows.
- Whether a plan stays inside the demand windows its operators were claimed for: that is the routing model's part.
- The weather filter and its conservative variant.
- Parsing of time windows, certified-operation sets and numbers: windows, sets and optional numbers are inputs.
- Solve: stated for cluster lists with distinct ids, which the source's index by id presumes; stamps are likewise stated for ids listed once.
- ApplyMaterialLimits: takes each order to be indexed under its own task id.
- Retained: takes the configured number of readings as positive; a limit of zero divides by zero in the source.
- BuildFreeCapacity: takes a positive horizon; the source divides by it.
- NegativeCapacityHides: its capacity lies outside what the planner builds; the member only marks where the scan depends on that range.
- Deconflict: takes at least one corridor to be configured, as the source does when it picks the least contended one.
- NaN scores and the vectorised scoring behind the warm start; the debug log of the assignment.
- Insertion order of composed dictionaries, YAML loading and the drone-specific profile tuning.
- Unhashable or unsortable list items in mapping metadata, Python's equality of booleans and numbers, and Unicode digits in versions.
- Where snapshots, fingerprints and registry artifacts come from, stale baselines and file writing.
- Timestamp regressions and arrival order of observations; outlier and fault statistics are parameters.
- PublishRun: models puts as atomic; a file torn by a crash inside one put is not modelled.
- Materialize: models a local write as atomic, so a half-written local file that is later skipped is not modelled.
- Reading single artifacts without listing the run first: the marker is not checked there, and nothing is promised.
