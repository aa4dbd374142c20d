# Movement safety, path finding and flood fill over a block grid

This project is a Dafny model of the movement core of `mc-bedrock-script-utilities`, a set of TypeScript helpers for Minecraft Bedrock scripts. The model covers:

- **the block safety checker.** It decides whether an entity may walk onto a block, fall from it or jump onto it. If not, it sets a reason flag.
- **`CuboidRegion`.** It lists the integer points of a box, and the hollow surface of a cube.
- **the head/tail `Queue`.**
- **two path finders.** `AStar` is a best-first search from the start. `BidirectionalAStar` runs a forward and a backward search that stop when they meet.
- **`FloodFillIterator`.** It is a breadth-first walk over the blocks reachable from a start location. It remembers visited locations by their `"x, y, z"` key.
- **the option records** of the above, and the `VectorUtils` helpers `AreEqual` and `GetAsString`.

The Minecraft dimension is a `World.Grid`, a `map<Vector3, Cell>`.
- A location missing from the map is a block that cannot be read: `getBlock` throws or returns `undefined`, for example in an unloaded chunk.
- A `Cell` holds what the core observes of a block: `isValid()`, `typeId` and `getTags()`.
- `block.below(n)` and `block.above(n)` are lookups at `y - n` and `y + n`.

Files and form:
- `block_safety_checker_utility.dfy`, `block_safety_check_result.dfy`, `block_safety_checker_options.dfy` hold the checker and its records. The checker is a pure decision tree. Its headroom loops become the recursive function `ScanAbove`, and lemmas state each branch.
- `region.dfy` holds the region code. The nested loops of `GetAllLocationsInRegion` and `GetPositionsAlongOuterEdgeOfCube` are methods with loop invariants. They are proved equal to the recursive functions `Locations` and `Surface`, whose contents, order and lack of repetition are proved as lemmas.
- `queue.dfy` holds `DataStructures.Queue`, a class over a `map<int, T>` plus `Head` and `Tail` counters. Its abstract contents are the window `Head..Tail-1`.
- `search_nodes.dfy` holds what both A* classes share:
  - the node record;
  - the list scans `GetIndexOfNodeIfInList` and `GetIndexOfNodeWithLowestFCost`;
  - the parent chain, with the lemmas that turn it into a path.
- `astar.dfy` and `bidirectional_astar.dfy` hold the two searches. Each is a loop over an open list and a closed map, with a frontier invariant.
- `flood_fill.dfy` holds `FloodFill.FloodFillIterator`. This class has the queue, the string-keyed closed list and the chunk size as fields. Its methods are proved against the functions `VisitCandidate` and `SweepOf`, which describe one candidate and one neighbour sweep.
- `vector_utils.dfy`, `world.dfy`, `lists.dfy` and `wrappers.dfy` hold the block locations, the grid, sequence helpers and `Option`/`Result`.

The code is followed wherever the code and its documentation differ. In particular:
- **Vertical candidates.** In vertical mode the flood fill tries 27 candidate positions, not 24. These are 8 flat positions, one position above, and an up and a down copy of each of those 9.
- **Distance bound.** The flood fill checks the distance bound on the candidate only. A block it substitutes one below or one above can therefore lie farther than `MaxDistance` from the start.
- **Water.** The water branches of the safety check leave `HasWaterBelow` false.
- **Meeting test.** `BidirectionalAStar` treats index 0 of the other open list as not found.

## Model

| member | source | states |
|---|---|---|
| SafetyResult.NewBlockSafetyCheckResult | BlockSafetyChecker/BlockSafetyCheckResult.ts:6-55 | a fresh result is unsafe and carries none of the other eleven flags |
| SafetyOptions.NewBlockSafetyCheckerOptions | BlockSafetyChecker/BlockSafetyCheckerOptions.ts:7-23 | the defaults: entity height 2, all four type/tag lists empty, vertical mode off |
| Lists.IndexOf | BlockSafetyChecker/BlockSafetyCheckerUtility.ts:189 | `indexOf`: -1 exactly when absent, otherwise the first index holding the value |
| Lists.SharesAny | BlockSafetyChecker/BlockSafetyCheckerUtility.ts:195 | the `some(tag => tags.indexOf(tag) > -1)` test holds iff the two lists share an element |
| BlockSafetyChecker.IsPassable | BlockSafetyChecker/BlockSafetyCheckerUtility.ts:183-202 | passable iff the block is valid and its type id, or one of its tags, is on a passable list |
| BlockSafetyChecker.CanBeJumpedOver | BlockSafetyChecker/BlockSafetyCheckerUtility.ts:209-223 | jumpable iff neither the type id nor any tag is on a cannot-jump list |
| BlockSafetyChecker.HazardNeedsReservedId | BlockSafetyChecker/BlockSafetyCheckerUtility.ts:229-239 | a block is lava (water) iff its id is `minecraft:lava` (`minecraft:water`) and that id is not declared passable; never both |
| BlockSafetyChecker.ScanAboveMeaning | BlockSafetyChecker/BlockSafetyCheckerUtility.ts:93-117 | the headroom loop succeeds iff every block above in range is readable and passable; otherwise it reports the first unreadable or blocking one |
| BlockSafetyChecker.RunBlockSafetyCheck | BlockSafetyChecker/BlockSafetyCheckerUtility.ts:15-177 | every outcome keeps the documented flag rules (fall/jump only when safe; headroom, cannot-jump and unloaded only when unsafe); at most one reason flag; fall and jump never together; IsWater, IsLava, HasWaterBelow never set; a fall needs a readable block below |
| BlockSafetyChecker.UnreadableBelow | BlockSafetyChecker/BlockSafetyCheckerUtility.ts:123-129 | a passable block over an unreadable one is unsafe with only the unloaded flag |
| BlockSafetyChecker.VerticalModeSkipsChecks | BlockSafetyChecker/BlockSafetyCheckerUtility.ts:25-29 | in vertical mode a passable block over a readable one is safe with no other flag |
| BlockSafetyChecker.CliffOrUnloaded | BlockSafetyChecker/BlockSafetyCheckerUtility.ts:30-70 | passable over passable: unloaded when two below is unreadable, a cliff when it is passable too |
| BlockSafetyChecker.FallBranch | BlockSafetyChecker/BlockSafetyCheckerUtility.ts:43-61 | passable, passable, solid: lava gives HasLavaBelow, water gives unsafe with HasWaterBelow false, anything else a safe fall with no headroom check |
| BlockSafetyChecker.WalkBranch | BlockSafetyChecker/BlockSafetyCheckerUtility.ts:71-121 | passable over solid ground: lava or water refused; otherwise safe iff the `EntityHeight - 1` blocks above are free, and else no-walk-space or unloaded |
| BlockSafetyChecker.JumpBranch | BlockSafetyChecker/BlockSafetyCheckerUtility.ts:131-175 | a solid block: cannot-jump when listed; otherwise a jump target iff the `EntityHeight` blocks above are free, and else no-jump-space or unloaded |
| BlockSafetyChecker.DefaultOptionsRefuseEverything | BlockSafetyChecker/BlockSafetyCheckerUtility.ts:131-168 | with default options no block is passable, so every block takes the jump branch and none is safe |
| Region.FromCenterLocation | Region/CuboidRegion.ts:9-22 | the region keeps the radius and the flatness flag it was built with |
| Region.GetAllLocationsInRegion | Region/CuboidRegion.ts:147-170 | the three nested loops produce exactly `Locations(region)` |
| Region.ZRowMembership | Region/CuboidRegion.ts:163-165 | the innermost loop yields exactly the points of its z range, one per z |
| Region.YPlaneMembership | Region/CuboidRegion.ts:162-166 | the two inner loops yield exactly the points of their y-z rectangle, (y extent) x (z extent) of them |
| Region.BoxMembership | Region/CuboidRegion.ts:161-167 | a point is produced iff each coordinate lies between the bounds |
| Region.BoxLength | Region/CuboidRegion.ts:161-167 | the loops produce the product of the three side lengths |
| Region.ZRowIncreasing | Region/CuboidRegion.ts:163-165 | the innermost loop runs in increasing z |
| Region.YPlaneIncreasing | Region/CuboidRegion.ts:162-166 | the two inner loops run in increasing (y, z) order |
| Region.BoxIncreasing | Region/CuboidRegion.ts:161-167 | the loops run in strictly increasing (x, y, z) order, x outermost |
| Region.RegionLocations | Region/CuboidRegion.ts:149-167 | the locations are exactly those between the min and max corners, each once, in (x, y, z) order, whichever corner comes first |
| Region.CenteredRegion | Region/CuboidRegion.ts:9-22 | a region around a centre holds the points within the radius in x and z, and in y unless flat (then only the centre's y); its size is (2r+1)² or (2r+1)³ |
| Region.FlatNeighbourhood | Region/CuboidRegion.ts:9-22 | the flat radius-1 region has 9 distinct locations at the centre's y, the centre among them |
| Region.Shift | Region/CuboidRegion.ts:38-42 | each offset moved to the centre, in order |
| Region.DedupSnoc | Region/CuboidRegion.ts:36-44 | one more offset adds a position iff neither the hash map nor the earlier offsets hold it |
| Region.DedupMeaning | Region/CuboidRegion.ts:30-44 | the hash map keeps the offsets not seen before, each once |
| Region.TracksSnoc | Region/CuboidRegion.ts:36-44 | one step of the innermost loop keeps positions and hash map in step with the offsets visited |
| Region.AddRow | Region/CuboidRegion.ts:35-45 | the innermost loop over z extends the positions by the new offsets of one row |
| Region.AddPlane | Region/CuboidRegion.ts:34-46 | the middle loop over y extends the positions by the new offsets of one face's rows |
| Region.AddFace | Region/CuboidRegion.ts:33-47 | the three loops of one face extend the positions by that face's new offsets |
| Region.GetPositionsAlongOuterEdgeOfCube | Region/CuboidRegion.ts:29-135 | the six face loops produce exactly `Surface(center, r)` |
| Region.CombineFaces | Region/CuboidRegion.ts:33-132 | the union of the six faces left, right, top, bottom, front, back is the cube surface |
| Region.FacesMembership | Region/CuboidRegion.ts:33-132 | an offset lies on some face iff it is within [-r, r]³ with a coordinate at ±r |
| Region.ShiftMeaning | Region/CuboidRegion.ts:38-42 | moving offsets to the centre keeps membership, and keeps distinct offsets distinct |
| Region.SurfaceMeaning | Region/CuboidRegion.ts:29-135 | the surface holds each point at Chebyshev distance r from the centre exactly once, and nothing else |
| Region.SurfaceOfPoint | Region/CuboidRegion.ts:29-135 | with radius 0 only the centre is returned |
| DataStructures.Queue.constructor | DataStructures/Queue.ts:4-8 | a new queue is empty, with Head = Tail and no stored keys |
| DataStructures.Queue.Length | DataStructures/Queue.ts:46-48 | Tail - Head: the number of queued elements, and no elements when negative |
| DataStructures.Queue.IsEmpty | DataStructures/Queue.ts:49-51 | empty iff the length is zero, and then nothing is queued |
| DataStructures.Queue.Peek | DataStructures/Queue.ts:42-44 | the oldest element when there is one, otherwise nothing |
| DataStructures.Queue.Enqueue | DataStructures/Queue.ts:10-13 | the element goes at the back; the length grows by one; Head is unchanged |
| DataStructures.Queue.EnqueueList | DataStructures/Queue.ts:15-20 | the list goes at the back in order; the length grows by its length |
| DataStructures.Queue.Dequeue | DataStructures/Queue.ts:22-27 | on a non-empty queue: the former front, the rest stays in order; on an empty queue Head passes Tail and nothing is returned |
| DataStructures.Queue.DequeueChunk | DataStructures/Queue.ts:29-40 | returns the first min(size, length) elements in order and leaves the rest queued |
| PathfinderOptions.NewAStarOptions | Pathfinder/AStarOptions.ts:6-58 | stores start, goal and dimension; node limit 100; every list empty; vertical and debug mode off |
| FloodFillOptions.NewFloodFillIteratorOptions | Iterators/FloodFillIIteratorOptions.ts:3-47 | stores start, dimension and maximum distance; every list empty; vertical mode off |
| SearchNodes.SafetyOptionsFor | Pathfinder/AStar.ts:112-116 | the searches' safety options copy the passable lists, the non-jumpable type ids and the vertical flag; height stays 2 and the non-jumpable tags stay empty |
| SearchNodes.FirstIndex | Pathfinder/AStar.ts:250-260 | the first index holding a location, or none iff the location is absent |
| SearchNodes.GetIndexOfNodeIfInList | Pathfinder/AStar.ts:250-260 | the first node at the same location, or null iff no node is there |
| SearchNodes.NodesFirstIndex | Pathfinder/AStar.ts:250-260 | the first-index search over a node list's locations agrees with a direct search of the nodes |
| SearchNodes.GetIndexOfNodeWithLowestFCost | Pathfinder/AStar.ts:267-286 | -1 iff the list is empty; otherwise an index of minimal F cost with every earlier node strictly dearer (ties go to the earliest) |
| SearchNodes.KeySymmetric | Pathfinder/BidirectionalAStar.ts:420-422 | `CalculateFCost`, the G cost towards the start plus the heuristic towards the goal (the same sum as the A* copy at Pathfinder/AStar.ts:292-294), is unchanged when start and goal swap roles, so the backward search ranks nodes the same way |
| SearchNodes.Chain | Pathfinder/AStar.ts:55-59 | the parent walk starts at the node itself |
| SearchNodes.ChainEnds | Pathfinder/AStar.ts:55-59 | the parent walk has GCost + 1 locations and ends at the root |
| SearchNodes.ChainShape | Pathfinder/AStar.ts:160-166 | along the parent walk every node is closed, its G cost falls by one per step and its parent is the next location |
| SearchNodes.ChainNoDup | Pathfinder/AStar.ts:178-187 | the closed part of a parent walk repeats no location, nor does the whole walk from an unclosed node |
| SearchNodes.FreshChain | Pathfinder/AStar.ts:178-187 | the walk from an unclosed node ends at the root and repeats nothing |
| SearchNodes.CloseKeepsClosedOk | Pathfinder/AStar.ts:101-105 | closing a well-linked node keeps the closed map well linked and keeps earlier links valid |
| SearchNodes.PushKeepsFrontier | Pathfinder/AStar.ts:185-187 | pushing a new child whose location is neither open nor closed keeps the frontier invariant |
| SearchNodes.RelaxKeepsFrontier | Pathfinder/AStar.ts:193-196 | replacing an open entry's G cost and parent with the child's keeps the frontier invariant |
| SearchNodes.CloseKeepsFrontier | Pathfinder/AStar.ts:101-105 | moving one open node to the closed map keeps the frontier invariant |
| SearchNodes.ChainEdges | Pathfinder/AStar.ts:158-166 | each step of a parent walk is a move the search could take |
| SearchNodes.ChainPath | Pathfinder/AStar.ts:54-61 | the reversed parent walk runs from the root to the node in GCost + 1 steps by legal moves, repeating nothing when the node is not closed |
| SearchNodes.CloseKeepsClosure | Pathfinder/AStar.ts:101-105 | after moving an open node to the closed map, every move out of any other closed location still leads to a closed or open location |
| SearchNodes.CoverGrows | Pathfinder/AStar.ts:185-196 | pushing onto the open list or re-parenting an entry keeps every covered location covered, and keeps the closure |
| SearchNodes.FreshMeaning | Pathfinder/AStar.ts:183-188 | the locations a run of candidates pushes are distinct, and are exactly the candidates that are neither closed nor already open |
| SearchNodes.RelaxAllMeaning | Pathfinder/AStar.ts:177-197 | over an open list without repeats or closed entries, processing the candidates keeps every entry's location, relaxes an entry iff its location is a candidate and its G cost exceeds the child's, and appends the fresh candidates once each as children of the closed node |
| SearchNodes.RelaxStepIndex | Pathfinder/AStar.ts:184-197 | looking the child up, then pushing it when absent and re-parenting the found entry when it is dearer, is one `RelaxStep` |
| SearchNodes.RelaxCandidate | Pathfinder/AStar.ts:177-197 | one candidate's lookup, push or relax gives `RelaxStep`, keeps the frontier invariant and the closure, covers the candidate and keeps everything covered |
| SearchNodes.PathStaysClosed | Pathfinder/AStar.ts:83-205 | with an empty open list and every move out of a closed location leading to a closed one, a path from a closed location stays closed |
| SearchNodes.ExploredReachable | Pathfinder/AStar.ts:101-105 | every closed location is reachable from the root by moves of the search |
| SearchNodes.ExhaustedReach | Pathfinder/AStar.ts:83-205 | once the open list runs dry, the closed locations are exactly those reachable from the root |
| SearchNodes.NodeLocationsReverse | Pathfinder/BidirectionalAStar.ts:58 | mapping nodes to locations commutes with reversal |
| SearchNodes.PushWalkExtends | Pathfinder/BidirectionalAStar.ts:209-213 | the path-building loop only appends to the list it started with |
| SearchNodes.PushWalkFresh | Pathfinder/BidirectionalAStar.ts:209-213 | a walk that repeats nothing and avoids the list is appended whole |
| SearchNodes.PushWalkLast | Pathfinder/BidirectionalAStar.ts:216-220 | the last location of the walk ends the list unless it was already there after the first entry |
| SearchNodes.PushWalkFrom | Pathfinder/BidirectionalAStar.ts:216-220 | every appended location comes from the walk, and none repeats an earlier entry except the first |
| Lists.Reverse | Pathfinder/AStar.ts:61 | `reverse()`: same length, element i taken from the mirrored position |
| AStarSearch.NewAStar | Pathfinder/AStar.ts:23-40 | construction succeeds iff start and goal can both be read, and then keeps the options |
| AStarSearch.Lookup | Pathfinder/AStar.ts:137-146 | `below(1)`/`above(1)` gives the block iff it can be read; otherwise the call throws |
| AStarSearch.SurroundingBlocksAt | Pathfinder/AStar.ts:119-153 | the body of the first loop for one location adds exactly `Contribution` |
| AStarSearch.GatherSurroundingBlocks | Pathfinder/AStar.ts:118-155 | the first loop builds exactly the candidate list of the neighbourhood, and throws inside the loop iff some `below(1)`/`above(1)` it reads cannot be read |
| AStarSearch.ContributionMeaning | Pathfinder/AStar.ts:119-150 | an unreadable or invalid location adds nothing; the goal adds itself without a safety check; anything added is readable and in the same column at most one block up or down; outside vertical mode nothing unreadable is added |
| AStarSearch.SurroundingBlocksMembership | Pathfinder/AStar.ts:118-155 | a block is a candidate iff some neighbourhood location contributes it |
| AStarSearch.CandidatesAreKingMoves | Pathfinder/AStar.ts:108-150 | every readable candidate lies one king move (each coordinate within one) from the closed location |
| AStarSearch.GoalIsAlwaysACandidate | Pathfinder/AStar.ts:126-128 | a readable, valid goal in the flat neighbourhood is always a candidate |
| AStarSearch.NonVerticalCandidatesPresent | Pathfinder/AStar.ts:135-150 | outside vertical mode no unreadable block is put on the candidate list |
| AStarSearch.RelaxSurroundingNodes | Pathfinder/AStar.ts:158-200 | the second loop reaches the goal iff the goal is a candidate; the goal child links soundly into the closed nodes with G cost within the closed count; otherwise the frontier invariant holds, every candidate ends up closed or open, and the open list is `RelaxAll` of the candidates: every entry keeps its location, an entry takes G cost + 1 and the closed node as parent exactly when its location is a candidate and its G cost is higher, and the candidates neither open nor closed are appended once each, in order of first appearance |
| AStarSearch.CloseKeepsSearchInv | Pathfinder/AStar.ts:101-105 | closing the chosen open node, when it is not the goal, keeps the search invariant |
| AStarSearch.IterateUntilGoalBlockReached | Pathfinder/AStar.ts:68-206 | a result is a goal node hanging soundly from the start within the node limit; the node-limit error comes after closing exactly `MaximumNodesToConsider` locations reachable from the start, the goal not among them; the no-path error comes only when the closed locations are exactly those the start reaches, so that no path leads to the goal; a zero limit fails with the node-limit error; start = goal gives the root; a crash needs vertical mode |
| AStarSearch.NoPathLeft | Pathfinder/AStar.ts:205 | a search whose open list ran dry closed exactly what the start reaches, within the node limit, and the goal is unreachable |
| AStarSearch.TreePath | Pathfinder/AStar.ts:54-61 | the reversed walk from the goal node runs from start to goal in GCost + 1 steps, by legal moves, repeating nothing |
| AStarSearch.TreeFoundPath | Pathfinder/AStar.ts:54-61 | a finished search within the limit gives a path meeting `FoundPath` |
| AStarSearch.RootPath | Pathfinder/AStar.ts:97-99 | a search that stops at its root gives the path holding only the start |
| AStarSearch.PathSteps | Pathfinder/AStar.ts:157-166 | each step of a search path goes to a candidate of the previous location, a readable block one king move away |
| AStarSearch.CollectPath | Pathfinder/AStar.ts:54-59 | the loop over `ParentNode` collects exactly the parent walk of the goal node |
| AStarSearch.Pathfind | Pathfinder/AStar.ts:46-62 | the returned blocks run from start to goal by moves of the search (readable blocks one king move apart), each once, at most `MaximumNodesToConsider + 1` of them; the errors mean what they mean for the search: node limit after that many reachable locations, no path only when the goal is unreachable |
| BidirectionalSearch.NewBidirectionalAStar | Pathfinder/BidirectionalAStar.ts:26-42 | construction succeeds iff start and goal can both be read, and then keeps the options |
| BidirectionalSearch.ScanAt | Pathfinder/BidirectionalAStar.ts:153-188 | the body of a scanning loop for one location adds exactly `ScanContribution` |
| BidirectionalSearch.ScanStep | Pathfinder/BidirectionalAStar.ts:153-188 | one more scanned location extends the candidate list by its contribution, or crashes, or stops the scan at the target |
| BidirectionalSearch.GatherScan | Pathfinder/BidirectionalAStar.ts:153-188 | a scanning loop builds exactly the candidate list of its locations, stopping after the target |
| BidirectionalSearch.ScanMembership | Pathfinder/BidirectionalAStar.ts:153-188 | every candidate comes from one scanned location |
| BidirectionalSearch.ScanNonVertical | Pathfinder/BidirectionalAStar.ts:159-184 | outside vertical mode a location contributes what it contributes to the one-directional search |
| BidirectionalSearch.ScanNeverCrashes | Pathfinder/BidirectionalAStar.ts:164-184 | outside vertical mode a scan never reads an unreadable block and puts none on the list |
| BidirectionalSearch.ScanStopsAtTarget | Pathfinder/BidirectionalAStar.ts:160-162 | a readable, valid target among the scanned locations is the last candidate |
| BidirectionalSearch.ScanWithinSurrounding | Pathfinder/BidirectionalAStar.ts:153-188 | outside vertical mode every scanned candidate is also a candidate of the one-directional search |
| BidirectionalSearch.FlatCandidates | Pathfinder/BidirectionalAStar.ts:128-133 | outside vertical mode the candidates of a location are readable king moves, a subset of the A* candidates, and include an adjacent readable target |
| BidirectionalSearch.RelaxAgainst | Pathfinder/BidirectionalAStar.ts:190-238 | a processing loop keeps the frontier invariant and, without a meeting, leaves every candidate closed or open; a meeting is a fresh child at G cost + 1 found in the other open list at a non-zero first index; only an unreadable candidate crashes; without a meeting the open list is `RelaxAll` of the candidates, described entry by entry as for the A* loop |
| BidirectionalSearch.ExpandFrom | Pathfinder/BidirectionalAStar.ts:128-238 | scanning and processing one direction keeps its frontier and, without a meeting, the closure of its moves; reports a meeting as above; crashes only in vertical mode |
| BidirectionalSearch.PushUnlessListed | Pathfinder/BidirectionalAStar.ts:111 | the node is pushed iff the first-index search gives null or 0 |
| BidirectionalSearch.WalkInto | Pathfinder/BidirectionalAStar.ts:209-213 | a path-building loop pushes the parent walk onto the list by the push-unless-listed rule |
| BidirectionalSearch.FreshWalk | Pathfinder/BidirectionalAStar.ts:208-213 | walking an unclosed node into an empty list yields its whole parent walk |
| BidirectionalSearch.PopMeetingList | Pathfinder/BidirectionalAStar.ts:107-122 | the pop-time node list: the forward walk cut to its first and last entries, then the backward walk |
| BidirectionalSearch.JoinedMeetingList | Pathfinder/BidirectionalAStar.ts:204-222 | the expansion-time node list: the forward walk reversed, the backward walk pushed, the whole reversed |
| BidirectionalSearch.ExpandRound | Pathfinder/BidirectionalAStar.ts:125-324 | a round keeps both frontiers and both closures, or ends with a well-formed meeting and its node list, or crashes only in vertical mode |
| BidirectionalSearch.IterateUntilGoalBlockReached | Pathfinder/BidirectionalAStar.ts:65-328 | a result is the node list of a well-formed meeting of the two searches; the node-limit error comes after each direction closed `MaximumNodesToConsider` locations reachable from its root; the no-path error only when one direction closed everything its root reaches, so that for distinct ends one end does not reach the other; a zero node limit fails with the node-limit error; a crash needs vertical mode |
| BidirectionalSearch.Round | Pathfinder/BidirectionalAStar.ts:91-324 | one round below the node limit either meets, with a well-formed meeting and its node list, or crashes in vertical mode, or closes one more location per direction and keeps both frontiers and closures |
| BidirectionalSearch.CloseBoth | Pathfinder/BidirectionalAStar.ts:124-137 | closing the popped node of each direction keeps both frontiers, and leaves only the two new closed locations' moves unprocessed |
| BidirectionalSearch.LimitReached | Pathfinder/BidirectionalAStar.ts:92-95 | at the node limit each direction closed that many locations, each reachable from its root |
| BidirectionalSearch.NoPathLeft | Pathfinder/BidirectionalAStar.ts:91-327 | when either open list runs dry, that direction closed exactly what its root reaches, and for distinct ends that excludes the other end |
| BidirectionalSearch.JoinedListShape | Pathfinder/BidirectionalAStar.ts:206-222 | pushing the backward walk onto a forward path keeps that path in front, ends at the goal, and holds the meeting location once |
| BidirectionalSearch.PopListShape | Pathfinder/BidirectionalAStar.ts:115-121 | after the final reversal the popped location and the start come last, and the list begins at the goal unless start = goal |
| BidirectionalSearch.JoinedPathShape | Pathfinder/BidirectionalAStar.ts:204-222 | an expansion-time meeting gives a list from start to goal whose forward part is a legal path without repeats and which holds the meeting location once |
| BidirectionalSearch.GoalOffForwardPath | Pathfinder/BidirectionalAStar.ts:204-213 | the goal is not on the forward walk of an expansion-time meeting except at the start |
| BidirectionalSearch.PopPathShape | Pathfinder/BidirectionalAStar.ts:107-122 | a pop-time meeting gives a list ending in start and then the popped location, beginning at the goal unless start = goal |
| BidirectionalSearch.PopNodeList | Pathfinder/BidirectionalAStar.ts:115-121 | a pop-time meeting resolves with the backward walk pushed onto [popped, start] |
| BidirectionalSearch.Pathfind | Pathfinder/BidirectionalAStar.ts:48-59 | the returned blocks are the reversed node list of a well-formed meeting, at least two of them: start to goal for an expansion-time meeting, ending in start then the popped location for a pop-time one; the errors mean what they mean for the search |
| VectorUtils.AreEqual | Vector/VectorUtils.ts:10-14 | true iff the two locations agree in x, y and z |
| VectorUtils.AreEqualReflexive | Vector/VectorUtils.ts:10-14 | every location equals itself |
| VectorUtils.AreEqualSymmetric | Vector/VectorUtils.ts:10-14 | the comparison does not depend on argument order |
| VectorUtils.NatToString | Vector/VectorUtils.ts:21 | a template literal prints a natural number as one or more decimal digits |
| VectorUtils.IntToString | Vector/VectorUtils.ts:21 | a printed integer contains neither ',' nor ' ' |
| VectorUtils.GetAsStringRoundTrip | Vector/VectorUtils.ts:20-22 | the `"x, y, z"` key reads back to the location it came from |
| VectorUtils.GetAsStringInjective | Vector/VectorUtils.ts:20-22 | distinct locations have distinct keys |
| FloodFill.FloodSafetyOptions | Iterators/FloodFill/FloodFillIterator.ts:49-57 | the flood fill's safety options copy the passable lists and the non-jumpable type ids; vertical mode stays off |
| FloodFill.IsBlockIgnored | Iterators/FloodFill/FloodFillIterator.ts:99-119 | ignored iff the block is valid and a tag or the type id is on an ignore list |
| FloodFill.IsBlockPassable | Iterators/FloodFill/FloodFillIterator.ts:126-144 | agrees with the safety checker's passability under the flood fill's options |
| FloodFill.IsBlockAlwaysIncluded | Iterators/FloodFill/FloodFillIterator.ts:151-169 | always included iff the block is valid and its type id or a tag is on an always-include list |
| FloodFill.OutOfBoundsIsDistance | Iterators/FloodFill/FloodFillIterator.ts:175-177 | `IsLocationOutOfBounds`, written as a squared-distance test, holds iff the Euclidean distance to the start exceeds `MaxDistance` |
| FloodFill.KeysAdd | Iterators/FloodFill/FloodFillIterator.ts:90-92 | closing a location adds exactly its key to the closed keys |
| FloodFill.KeyedIn | Iterators/FloodFill/FloodFillIterator.ts:81-83 | a location's key is closed iff the location itself is |
| FloodFill.SafetyCheckOf | Iterators/FloodFill/FloodFillIterator.ts:276 | there is a table of safety results for the readable blocks, and it agrees with the checker |
| FloodFill.SafetyCheckSound | Iterators/FloodFill/FloodFillIterator.ts:276-287 | a fall or jump result always points at a readable block below or above |
| FloodFill.VisitCandidate | Iterators/FloodFill/FloodFillIterator.ts:236-306 | one candidate: out of bounds or closed changes nothing; the closed set only grows; an accepted location was not closed before and is closed after |
| FloodFill.VisitAcceptance | Iterators/FloodFill/FloodFillIterator.ts:257-299 | an accepted candidate is in bounds, readable, valid and not ignored; it is itself when always included or in vertical mode; otherwise the check said safe and it is the block, the one below or the one above; an ignored block is closed and not accepted; an always-included one is accepted |
| FloodFill.VerticalAcceptance | Iterators/FloodFill/FloodFillIterator.ts:184-194 | `GetBlockIfPassable`: in vertical mode an ordinary candidate (in bounds, unclosed, readable, not ignored, not always included) is accepted as itself iff it is valid and passable; only then is it closed |
| FloodFill.SweepStep | Iterators/FloodFill/FloodFillIterator.ts:236-307 | a sweep is the first candidate's outcome followed by the sweep of the rest |
| FloodFill.FreshAfter | Iterators/FloodFill/FloodFillIterator.ts:294-296 | putting a fresh, now closed location in front of a fresh sweep keeps it fresh |
| FloodFill.SweepFresh | Iterators/FloodFill/FloodFillIterator.ts:236-307 | a sweep accepts readable locations that were not closed before, each once, and closes each of them |
| FloodFill.ShiftedCopies | Iterators/FloodFill/FloodFillIterator.ts:226-231 | each position gives an up copy and then a down copy, in order |
| FloodFill.FlatCandidatePositions | Iterators/FloodFill/FloodFillIterator.ts:211-220 | the 8 flat offsets: distinct, at the same y, with (0,0,-2) among them and (0,0,-1) not |
| FloodFill.VerticalCandidatePositions | Iterators/FloodFill/FloodFillIterator.ts:222-234 | vertical mode gives 27 positions: the 8 flat ones, the one above, then an up and a down copy of each of those 9; the block itself is among them |
| FloodFill.ValidOnlyAppend | Iterators/FloodFill/FloodFillIterator.ts:323-338 | the blocks yielded over two chunks are those of the first chunk followed by those of the second |
| FloodFill.ValidOnlyWithin | Iterators/FloodFill/FloodFillIterator.ts:323-338 | the yielded blocks are dequeued blocks that are readable and valid, each once when the queue repeated nothing |
| FloodFill.QueueInvExtend | Iterators/FloodFill/FloodFillIterator.ts:333 | appending freshly accepted locations keeps everything ever queued distinct, readable, closed and not ignored |
| FloodFill.QueueInvGrow | Iterators/FloodFill/FloodFillIterator.ts:294-296 | the queue invariant survives any growth of the closed set |
| FloodFill.FoldAppend | Iterators/FloodFill/FloodFillIterator.ts:323-338 | processing two runs of blocks one after the other closes and queues what processing the joined run does |
| FloodFill.FoldStep | Iterators/FloodFill/FloodFillIterator.ts:323-338 | processing one more block adds its sweep to the closed set and its accepted neighbours to the queue |
| FloodFill.FoldTrace | Iterators/FloodFill/FloodFillIterator.ts:313-342 | a chunk processed after earlier chunks leaves the queue log as the sweep of all dequeued blocks |
| FloodFill.FloodFillIterator.constructor | Iterators/FloodFill/FloodFillIterator.ts:29-65 | the closed list starts as exactly the ignored locations; the queue then holds the start's accepted neighbours in order; the chunk size is 8 |
| FloodFill.FloodFillIterator.CloseIgnoredLocations | Iterators/FloodFill/FloodFillIterator.ts:44-47 | the loop adds exactly the locations to ignore to the closed list |
| FloodFill.FloodFillIterator.New | Iterators/FloodFill/FloodFillIterator.ts:29-42 | construction fails iff the starting block cannot be read |
| FloodFill.FloodFillIterator.HasLocationBeenClosed | Iterators/FloodFill/FloodFillIterator.ts:81-83 | a location's key is in the closed list iff the location has been closed |
| FloodFill.FloodFillIterator.AddLocationToClosedList | Iterators/FloodFill/FloodFillIterator.ts:90-92 | adds the location's key, keeping keys and locations in agreement; nothing else changes |
| FloodFill.FloodFillIterator.SetYieldedChunkSize | Iterators/FloodFill/FloodFillIterator.ts:200-202 | sets the chunk size; nothing else changes |
| FloodFill.FloodFillIterator.GetAdjacentPositions | Iterators/FloodFill/FloodFillIterator.ts:211-234 | builds exactly the candidate positions of the current mode |
| FloodFill.FloodFillIterator.VisitLocation | Iterators/FloodFill/FloodFillIterator.ts:238-306 | the body of the candidate loop does what `VisitCandidate` describes to the closed list and to the yield |
| FloodFill.FloodFillIterator.IterateAdjacentPassableBlocks | Iterators/FloodFill/FloodFillIterator.ts:209-308 | the non-null yields are the sweep of the candidates: distinct, readable, not closed before, closed after |
| FloodFill.FloodFillIterator.QueueAdjacent | Iterators/FloodFill/FloodFillIterator.ts:325-333 | a block's accepted neighbours are appended to the queue in order |
| FloodFill.FloodFillIterator.EnqueueAccepted | Iterators/FloodFill/FloodFillIterator.ts:333 | `EnqueueList` appends the accepted locations and keeps the iterator's invariant |
| FloodFill.FloodFillIterator.ProcessBlock | Iterators/FloodFill/FloodFillIterator.ts:323-337 | a valid block closes and queues exactly its `BlockSweep`, the accepted neighbours in order; an invalid one changes nothing |
| FloodFill.FloodFillIterator.ProcessNext | Iterators/FloodFill/FloodFillIterator.ts:323-338 | one pass of the block loop extends the yields by the block when valid and the closed set and queue by its sweep |
| FloodFill.FloodFillIterator.DequeueBlocks | Iterators/FloodFill/FloodFillIterator.ts:315 | takes the first min(chunk size, length) queued blocks in order |
| FloodFill.FloodFillIterator.ProcessChunk | Iterators/FloodFill/FloodFillIterator.ts:323-338 | a chunk yields its valid blocks in order and keeps the invariant; the closed set and the appended queue entries are the `ChunkSweep` of the chunk, block after block |
| FloodFill.FloodFillIterator.DrainChunk | Iterators/FloodFill/FloodFillIterator.ts:314-341 | one pass of the outer loop dequeues at least one block and keeps the yields, closed set and queue as the sweep of everything dequeued since the start |
| FloodFill.FloodFillIterator.IterateLocations | Iterators/FloodFill/FloodFillIterator.ts:313-342 | runs until the queue is empty; the yields are the valid blocks of everything dequeued, in FIFO order, and no location is yielded twice; the closed set and everything queued since the call are the `ChunkSweep` of all dequeued blocks, so each queued location is an accepted neighbour of an earlier dequeued valid block |

## Left out

- The Minecraft API is left out: `Dimension.getBlock`, `isValid()`, `typeId`, `getTags()`, `below`/`above`. They are read from a fixed `Grid`. The world does not change while an operation runs. The scheduler interleaving (`system.runJob`, generators, `yield`, `yield null`) that would let it change is not modelled.
- `Math.random() < 0.75` in the flood fill's main loop only inserts an idle step. It is left out.
- The debug visualisation (`SetDebugBlock`, `ClearDebugBlocks`, `DebugMode`) writes blocks into the world. It is left out.
- Floating point is left out:
  - `Vector.distance` is a real-valued parameter `dist` of the searches. Its square root is not modelled, and no property of it is assumed.
  - The flood fill's distance bound compares the squared integer distance with `MaxDistance²`. `OutOfBoundsIsDistance` shows this is the same test.
  - `Math.round` of the radius is left out: radii are integers.
- Coordinates and G costs are unbounded integers. JavaScript's loss of precision on very large numbers is not modelled.
- `Vector/Vector.ts` (`toString`, `equals`, `distance`) is not part of this model. `Vector.equals` is taken as component equality and `Vector.toString` as an injective key, so closed maps are keyed by location.
- `CuboidRegion.GetAdjacentPositions` is not part of this model. `BidirectionalAStar` calls it in vertical mode, so it is the parameter `adjacent`, with no property assumed.
- `VectorUtils.Magnitude` and `VectorUtils.Unit` use square roots and division. The core does not use them, so they are left out.
- Blocks are identified by their location. A queued or listed `Block` is its location plus the grid.
- `HasBlockLocationBeenClosed` is folded into `FloodFill.FloodFillIterator.HasLocationBeenClosed`. It is the same test on `block.location`.
- The `FCost` and `HCost` fields of `IAStarNode` are not stored. The source never reads them back; it recomputes the F cost from the location. The start node's G cost `distance(start, start)` is taken as 0.
- The ignore lists of `AStarOptions` are held but have no effect, as in the source.
- FloodFill.FloodFillIterator.constructor: the source enqueues each yielded neighbour as it appears. The model enqueues the same list at once with `EnqueueList`, which leaves the queue in the same state.
- FloodFill.FloodFillIterator.IterateLocations: requires a chunk size of at least 1. With a smaller size `DequeueChunk` returns nothing, and the source loop never ends.
- AStarSearch.IterateUntilGoalBlockReached: states what a result is and what each error means, but not which path is found. That choice depends on `Vector.distance`, which is a parameter here.
- AStarSearch.GatherSurroundingBlocks: a `below(1)` or `above(1)` that cannot be read is taken to throw, so the search fails in the first loop. If the call returned `undefined` instead, the source would push it and fail later, at `.location` in the second loop. Both end the search with no path, but the model does not keep the candidates processed before that point.
- BidirectionalSearch.IterateUntilGoalBlockReached: states the shape of the meeting, not which meeting occurs. For the no-path error it states that one direction closed everything its root reaches, and that for distinct ends either the forward moves do not lead from the start to the goal or the backward moves do not lead from the goal to the start. The two directions use different moves (each stops its scan at its own target), so this is not stated as one reachability fact.
- BidirectionalSearch.JoinedPathShape: proves the forward part of an expansion-time result to be a path of legal moves. The backward part is only proved to come from the backward parent walk, because the push-unless-listed rule (index 0 counts as absent) may drop or repeat locations there.
- BidirectionalSearch.Pathfind: for a pop-time meeting it does not state a start-to-goal path. The source keeps only the first and last forward nodes, so the result ends in the start and then the popped location.
- DataStructures.Queue.DequeueChunk: requires a non-negative length. A queue dequeued past empty would make the source hand out `size` undefined elements, and that case is not modelled.
- DataStructures.Queue.DequeueChunk: the size is a JavaScript number, modelled as an integer. A fractional size is not modelled; the source's loop `i < size` would dequeue 3 elements for a size of 2.5.
- FloodFill.FloodFillIterator.SetYieldedChunkSize: the chunk size is modelled as an integer, so a fractional chunk size, which `DequeueChunk` would round up, is not modelled.
- BlockSafetyChecker.WalkBranch: `EntityHeight` is modelled as an integer. A fractional height, for which the loops `i < EntityHeight - 1` and `i < EntityHeight` run to the next whole number, is not modelled; the same holds for BlockSafetyChecker.JumpBranch.
- DataStructures.Queue.Dequeue: an empty queue hands out no element. The source returns `undefined`, which the model writes as `None`.
