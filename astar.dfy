/** The A* search (`AStar`): a best-first search from the start location that
    closes one location per round, expands it to the safe cells of its flat
    3x3 neighbourhood, and stops when the goal is popped or generated. */
module AStarSearch {
  import opened Wrappers
  import opened Lists
  import opened VectorUtils
  import opened World
  import opened SafetyResult
  import opened SafetyOptions
  import opened BlockSafetyChecker
  import opened Region
  import opened PathfinderOptions
  import opened SearchNodes

  /** An `AStar` object once its constructor has read both end blocks. */
  datatype AStar = AStar(Options: AStarOptions, StartBlock: Cell, EndBlock: Cell)

  /** The constructor: it throws unless both the start and the goal block can be read. */
  function NewAStar(options: AStarOptions): (r: Result<AStar, SearchError>)
    ensures r.Ok? <==> options.StartLocation in options.Dimension && options.GoalLocation in options.Dimension
    ensures r.Ok? ==> r.value.Options == options
    ensures r.Err? ==> r.error == ConstructionFailed
  {
    var grid := options.Dimension;
    if options.StartLocation in grid && options.GoalLocation in grid then
      Ok(AStar(options, grid[options.StartLocation], grid[options.GoalLocation]))
    else
      Err(ConstructionFailed)
  }

  // ---- Candidate cells

  /** A cell pushed on the candidate list without a check: `block.below(1)` or
      `block.above(1)`; `None` when the cell cannot be read, where the call
      throws. */
  function Lookup(grid: Grid, loc: Vector3): (r: Option<Vector3>)
    ensures r.Some? <==> loc in grid
    ensures r.Some? ==> r.value == loc
  {
    if loc in grid then Some(loc) else None
  }

  /** What one location of the neighbourhood adds to the candidate list: nothing
      when unreadable or invalid; the goal itself regardless of safety; nothing
      when unsafe; otherwise, in vertical mode, the cell and both its vertical
      neighbours, and in every mode the cell to fall to, to jump onto, or the
      cell itself. */
  function Contribution(grid: Grid, so: BlockSafetyCheckerOptions, goal: Vector3, loc: Vector3): seq<Option<Vector3>> {
    if loc !in grid || !grid[loc].IsValid then []
    else if loc == goal then [Some(loc)]
    else
      var check := RunBlockSafetyCheck(grid, loc, so);
      if !check.IsSafe then []
      else
        (if so.AllowYAxisFlood then [Some(loc), Lookup(grid, Below(loc, 1)), Lookup(grid, Above(loc, 1))] else [])
        + [if check.CanSafelyFallFrom then Lookup(grid, Below(loc, 1))
           else if check.CanSafelyJumpOnto then Lookup(grid, Above(loc, 1))
           else Some(loc)]
  }

  /** The candidate list gathered over the neighbourhood, location by location. */
  function SurroundingBlocksOf(grid: Grid, so: BlockSafetyCheckerOptions, goal: Vector3, locs: seq<Vector3>): seq<Option<Vector3>> {
    if locs == [] then []
    else SurroundingBlocksOf(grid, so, goal, locs[..|locs| - 1]) + Contribution(grid, so, goal, locs[|locs| - 1])
  }

  /** The candidate list of a closed location. */
  function Candidates(grid: Grid, so: BlockSafetyCheckerOptions, goal: Vector3, center: Vector3): seq<Option<Vector3>> {
    SurroundingBlocksOf(grid, so, goal, Region.Locations(FromCenterLocation(center, 1, true)))
  }

  /** The body of the first loop for one location. */
  method SurroundingBlocksAt(grid: Grid, so: BlockSafetyCheckerOptions, goal: Vector3, loc: Vector3)
    returns (add: seq<Option<Vector3>>)
    ensures add == Contribution(grid, so, goal, loc)
  {
    add := [];
    if loc in grid && grid[loc].IsValid {
      if loc == goal {
        add := add + [Some(loc)];
      } else {
        var check := RunBlockSafetyCheck(grid, loc, so);
        if check.IsSafe {
          if so.AllowYAxisFlood {
            add := add + [Some(loc)];
            add := add + [Lookup(grid, Below(loc, 1))];
            add := add + [Lookup(grid, Above(loc, 1))];
          }
          if check.CanSafelyFallFrom {
            add := add + [Lookup(grid, Below(loc, 1))];
          } else if check.CanSafelyJumpOnto {
            add := add + [Lookup(grid, Above(loc, 1))];
          } else {
            add := add + [Some(loc)];
          }
        }
      }
    }
  }

  /** The first loop of a round: the candidate list of the given locations. A
      `below(1)` or `above(1)` that cannot be read throws inside the loop, so
      a list that comes back holds no missing block. */
  method GatherSurroundingBlocks(grid: Grid, so: BlockSafetyCheckerOptions, goal: Vector3, locs: seq<Vector3>)
    returns (r: Result<seq<Option<Vector3>>, SearchError>)
    ensures r.Err? <==> None in SurroundingBlocksOf(grid, so, goal, locs)
    ensures r.Err? ==> r.error == UnreadableCell
    ensures r.Ok? ==> r.value == SurroundingBlocksOf(grid, so, goal, locs)
  {
    var blocks := [];
    var i := 0;
    while i < |locs|
      invariant 0 <= i <= |locs|
      invariant blocks == SurroundingBlocksOf(grid, so, goal, locs[..i])
      invariant None !in blocks
    {
      var add := SurroundingBlocksAt(grid, so, goal, locs[i]);
      if None in add {
        SurroundingBlocksMembership(grid, so, goal, locs, None);
        return Err(UnreadableCell);
      }
      blocks := blocks + add;
      assert locs[..i + 1][..i] == locs[..i];
      i := i + 1;
    }
    assert locs[..i] == locs;
    return Ok(blocks);
  }

  /** One step along a path: every coordinate changes by at most one. */
  predicate KingMove(a: Vector3, b: Vector3) {
    Abs(b.x - a.x) <= 1 && Abs(b.y - a.y) <= 1 && Abs(b.z - a.z) <= 1
  }

  /** A location contributes only readable cells in its own column, at most one
      block away; an unreadable or invalid one contributes nothing, the goal
      only itself; and outside vertical mode nothing missing is contributed. */
  lemma ContributionMeaning(grid: Grid, so: BlockSafetyCheckerOptions, goal: Vector3, loc: Vector3)
    ensures forall c :: c in Contribution(grid, so, goal, loc) && c.Some? ==>
      c.value in grid && c.value.x == loc.x && c.value.z == loc.z && Abs(c.value.y - loc.y) <= 1
    ensures loc !in grid || !grid[loc].IsValid ==> Contribution(grid, so, goal, loc) == []
    ensures loc in grid && grid[loc].IsValid && loc == goal ==> Contribution(grid, so, goal, loc) == [Some(goal)]
    ensures !so.AllowYAxisFlood && so.EntityHeight >= 1 ==> None !in Contribution(grid, so, goal, loc)
  {
  }

  /** A candidate comes from exactly the locations that contribute it. */
  lemma {:induction false} SurroundingBlocksMembership(grid: Grid, so: BlockSafetyCheckerOptions, goal: Vector3,
                                                      locs: seq<Vector3>, c: Option<Vector3>)
    ensures c in SurroundingBlocksOf(grid, so, goal, locs) <==>
      exists k :: 0 <= k < |locs| && c in Contribution(grid, so, goal, locs[k])
    decreases |locs|
  {
    if locs != [] {
      var init := locs[..|locs| - 1];
      SurroundingBlocksMembership(grid, so, goal, init, c);
      if c in SurroundingBlocksOf(grid, so, goal, locs) {
        if c in SurroundingBlocksOf(grid, so, goal, init) {
          var k :| 0 <= k < |init| && c in Contribution(grid, so, goal, init[k]);
          assert locs[k] == init[k];
        } else {
          assert c in Contribution(grid, so, goal, locs[|locs| - 1]);
        }
      }
      if exists k :: 0 <= k < |locs| && c in Contribution(grid, so, goal, locs[k]) {
        var k :| 0 <= k < |locs| && c in Contribution(grid, so, goal, locs[k]);
        if k < |locs| - 1 {
          assert init[k] == locs[k];
        }
      }
    }
  }

  /** Every candidate of a location is a readable cell one king move away from it. */
  lemma CandidatesAreKingMoves(grid: Grid, so: BlockSafetyCheckerOptions, goal: Vector3, center: Vector3, b: Vector3)
    requires Some(b) in Candidates(grid, so, goal, center)
    ensures b in grid && KingMove(center, b)
  {
    var locs := Region.Locations(FromCenterLocation(center, 1, true));
    SurroundingBlocksMembership(grid, so, goal, locs, Some(b));
    var k :| 0 <= k < |locs| && Some(b) in Contribution(grid, so, goal, locs[k]);
    var l := locs[k];
    ContributionMeaning(grid, so, goal, l);
    CenteredRegion(center, 1, true, l);
    KingStep(center, l, b);
  }

  /** A cell in the column of a flat neighbour, at most one block up or down,
      is one king move away. */
  lemma KingStep(center: Vector3, l: Vector3, b: Vector3)
    requires l.y == center.y && Abs(l.x - center.x) <= 1 && Abs(l.z - center.z) <= 1
    requires b.x == l.x && b.z == l.z && Abs(b.y - l.y) <= 1
    ensures KingMove(center, b)
  {
  }

  /** A readable, valid goal next to a closed location is always among its
      candidates, whatever the safety check would say about it. */
  lemma GoalIsAlwaysACandidate(grid: Grid, so: BlockSafetyCheckerOptions, goal: Vector3, center: Vector3)
    requires goal in grid && grid[goal].IsValid
    requires goal.y == center.y && Abs(goal.x - center.x) <= 1 && Abs(goal.z - center.z) <= 1
    ensures Some(goal) in Candidates(grid, so, goal, center)
  {
    var locs := Region.Locations(FromCenterLocation(center, 1, true));
    FlatNeighbourhood(center);
    var k :| 0 <= k < |locs| && locs[k] == goal;
    ContributionMeaning(grid, so, goal, goal);
    SurroundingBlocksMembership(grid, so, goal, locs, Some(goal));
  }

  /** Outside vertical mode (and for an entity at least one block high) no
      candidate is missing, so a round never dereferences an unreadable cell. */
  lemma NonVerticalCandidatesPresent(grid: Grid, so: BlockSafetyCheckerOptions, goal: Vector3, center: Vector3)
    requires !so.AllowYAxisFlood && so.EntityHeight >= 1
    ensures None !in Candidates(grid, so, goal, center)
  {
    var locs := Region.Locations(FromCenterLocation(center, 1, true));
    SurroundingBlocksMembership(grid, so, goal, locs, None);
    forall k | 0 <= k < |locs| ensures None !in Contribution(grid, so, goal, locs[k]) {
      ContributionMeaning(grid, so, goal, locs[k]);
    }
  }

  // ---- The search

  /** The moves of a search: `b` may become a child of `a` when it is among the
      candidates gathered around `a`. */
  function EdgeOf(o: AStarOptions): (Vector3, Vector3) -> bool {
    (a: Vector3, b: Vector3) => Some(b) in Candidates(o.Dimension, SafetyOptionsFor(o), o.GoalLocation, a)
  }

  /** What holds between rounds: the search's frontier, and the goal is never
      closed. */
  ghost predicate SearchInv(open: seq<Node>, closed: map<Vector3, Node>, edge: (Vector3, Vector3) -> bool,
                            start: Vector3, goal: Vector3) {
    Frontier(open, closed, edge, start) && goal !in closed
  }

  /** The goal node together with the closed nodes its `ParentNode` links reach. */
  datatype SearchTree = SearchTree(Goal: Node, Closed: map<Vector3, Node>)

  /** A finished search: the goal node and every closed node link soundly and
      were reached by moves, and the goal is not closed. */
  ghost predicate TreeOk(t: SearchTree, edge: (Vector3, Vector3) -> bool, start: Vector3, goal: Vector3) {
    && ClosedOk(t.Closed, start)
    && LinkOk(t.Goal, t.Closed, start)
    && EdgeOk(t.Goal, edge)
    && (forall l :: l in t.Closed ==> EdgeOk(t.Closed[l], edge))
    && t.Goal.Location == goal
    && goal !in t.Closed
  }

  /** How the second loop of a round ends. */
  datatype Expansion =
    | Expanded(Open: seq<Node>)
    | ReachedGoal(GoalNode: Node)

  /** The second loop of a round: each candidate becomes a child of `next`; the
      goal ends the search, a closed one is skipped, a new one is opened and an
      open one is re-parented when the child is strictly cheaper. The goal is
      reached iff it is a candidate; otherwise every candidate ends up closed
      or open. */
  method RelaxSurroundingNodes(open: seq<Node>, closed: map<Vector3, Node>, next: Node, blocks: seq<Option<Vector3>>,
                               ghost edge: (Vector3, Vector3) -> bool, start: Vector3, goal: Vector3)
    returns (e: Expansion)
    requires next.Location in closed && closed[next.Location] == next
    requires None !in blocks
    requires forall b :: edge(next.Location, b) <==> Some(b) in blocks
    requires SearchInv(open, closed, edge, start, goal)
    requires ClosureExcept(open, closed, edge, next.Location)
    ensures e.ReachedGoal? <==> Some(goal) in blocks
    ensures e.Expanded? ==> SearchInv(e.Open, closed, edge, start, goal) && Closure(e.Open, closed, edge)
    ensures e.Expanded? ==> e.Open == RelaxAll(open, closed, next, blocks)
    ensures e.Expanded? ==> RelaxedFrom(e.Open, open, next, blocks, Fresh(NodeLocations(open), closed, blocks))
    ensures e.ReachedGoal? ==> TreeOk(SearchTree(e.GoalNode, closed), edge, start, goal)
    ensures e.ReachedGoal? ==> e.GoalNode.GCost <= |closed|
  {
    var list := open;
    var i := 0;
    while i < |blocks|
      invariant 0 <= i <= |blocks|
      invariant SearchInv(list, closed, edge, start, goal)
      invariant ClosureExcept(list, closed, edge, next.Location)
      invariant forall j :: 0 <= j < i ==> blocks[j] != Some(goal) && Covered(blocks[j].value, list, closed)
      invariant list == RelaxAll(open, closed, next, blocks[..i])
    {
      assert blocks[i] in blocks;
      var c := blocks[i].value;
      var child := Node(c, Some(next.Location), next.GCost + 1);
      assert LinkOk(child, closed, start) && EdgeOk(child, edge) && child.GCost <= |closed|;
      if c == goal {
        return ReachedGoal(child);
      }
      assert blocks[i] == Some(c);
      RelaxAllSnoc(open, closed, next, blocks, i);
      ghost var before := list;
      list := RelaxCandidate(list, closed, next, c, edge, start);
      assert list == RelaxAll(open, closed, next, blocks[..i + 1]);
      forall j | 0 <= j < i + 1 ensures blocks[j] != Some(goal) && Covered(blocks[j].value, list, closed) {
        if j < i {
          assert Covered(blocks[j].value, before, closed);
        }
      }
      i := i + 1;
    }
    assert Closure(list, closed, edge) by {
      forall l, b | l in closed && edge(l, b) ensures Covered(b, list, closed) {
        if l == next.Location {
          var j :| 0 <= j < |blocks| && blocks[j] == Some(b);
        }
      }
    }
    assert blocks[..|blocks|] == blocks;
    FrontierDistinct(open, closed, edge, start);
    RelaxAllMeaning(open, closed, next, blocks);
    return Expanded(list);
  }

  /** Closing the cheapest open node, when it is not the goal, keeps the
      invariant, one location more closed. */
  lemma CloseKeepsSearchInv(open: seq<Node>, closed: map<Vector3, Node>, k: nat,
                            edge: (Vector3, Vector3) -> bool, start: Vector3, goal: Vector3)
    requires SearchInv(open, closed, edge, start, goal)
    requires k < |open| && open[k].Location != goal
    ensures var next := open[k];
      SearchInv(open[..k] + open[k + 1..], closed[next.Location := next], edge, start, goal)
  {
    CloseKeepsFrontier(open, closed, k, edge, start);
  }

  /** Why a search gave up, in terms of `searched`, the locations it closed:
      the node limit stops it once it has closed that many locations, each
      reachable from the start and none of them the goal; an exhausted open
      list means it closed every location reachable from the start, the goal
      not among them, so that no path leads to the goal. */
  ghost predicate GaveUp(e: SearchError, searched: set<Vector3>, o: AStarOptions) {
    && (e == NodeLimitExceeded ==>
          && (o.MaximumNodesToConsider >= 1 ==> |searched| == o.MaximumNodesToConsider)
          && o.GoalLocation !in searched
          && (forall l :: l in searched ==> Reachable(EdgeOf(o), o.StartLocation, l)))
    && (e == NoPathFound ==>
          && |searched| <= o.MaximumNodesToConsider
          && o.GoalLocation !in searched
          && (forall l :: Reachable(EdgeOf(o), o.StartLocation, l) <==> l in searched)
          && !Reachable(EdgeOf(o), o.StartLocation, o.GoalLocation))
  }

  /** `IterateUntilGoalBlockReached`: the goal node and the closed nodes it hangs
      from, or why the search gave up; `searched` is what it closed. */
  method IterateUntilGoalBlockReached(a: AStar, dist: (Vector3, Vector3) -> real)
    returns (r: Result<SearchTree, SearchError>, ghost searched: set<Vector3>)
    ensures var o := a.Options;
      r.Ok? ==> TreeOk(r.value, EdgeOf(o), o.StartLocation, o.GoalLocation)
    ensures r.Ok? ==> r.value.Goal.GCost <= a.Options.MaximumNodesToConsider
    ensures r.Err? ==> r.error != ConstructionFailed && GaveUp(r.error, searched, a.Options)
    ensures r == Err(UnreadableCell) ==> a.Options.AllowYAxisFlood
    ensures a.Options.MaximumNodesToConsider <= 0 ==> r == Err(NodeLimitExceeded)
    ensures a.Options.StartLocation == a.Options.GoalLocation && a.Options.MaximumNodesToConsider >= 1 ==>
      r == Ok(SearchTree(Root(a.Options.StartLocation), map[]))
  {
    var o := a.Options;
    var grid, start, goal := o.Dimension, o.StartLocation, o.GoalLocation;
    var so := SafetyOptionsFor(o);
    ghost var edge := EdgeOf(o);
    var open := [Root(start)];
    var closed: map<Vector3, Node> := map[];
    searched := {};
    while |open| > 0
      invariant SearchInv(open, closed, edge, start, goal) && Closure(open, closed, edge)
      invariant closed == map[] ==> open == [Root(start)]
      invariant closed != map[] ==> |closed| <= o.MaximumNodesToConsider && start in closed
      decreases o.MaximumNodesToConsider - |closed|
    {
      if |closed| >= o.MaximumNodesToConsider {
        searched := closed.Keys;
        ExploredReachable(closed, edge, start);
        return Err(NodeLimitExceeded), searched;
      }
      var nextIndex := GetIndexOfNodeWithLowestFCost(open, dist, start, goal);
      var next := open[nextIndex];
      if next.Location == goal {
        return Ok(SearchTree(next, closed)), searched;
      }
      CloseKeepsSearchInv(open, closed, nextIndex, edge, start, goal);
      CloseKeepsClosure(open, closed, nextIndex, edge);
      open := open[..nextIndex] + open[nextIndex + 1..];
      closed := closed[next.Location := next];
      var surroundingLocations := GetAllLocationsInRegion(FromCenterLocation(next.Location, 1, true));
      var gathered := GatherSurroundingBlocks(grid, so, goal, surroundingLocations);
      if gathered.Err? {
        if !so.AllowYAxisFlood {
          NonVerticalCandidatesPresent(grid, so, goal, next.Location);
        }
        return Err(UnreadableCell), searched;
      }
      var blocks := gathered.value;
      assert forall b :: edge(next.Location, b) <==> Some(b) in blocks;
      var e := RelaxSurroundingNodes(open, closed, next, blocks, edge, start, goal);
      match e
      case ReachedGoal(node) =>
        return Ok(SearchTree(node, closed)), searched;
      case Expanded(list) =>
        open := list;
    }
    searched := closed.Keys;
    NoPathLeft(o, closed);
    return Err(NoPathFound), searched;
  }

  /** A search whose open list ran dry closed exactly what the start reaches,
      and that does not include the goal. */
  lemma NoPathLeft(o: AStarOptions, closed: map<Vector3, Node>)
    requires SearchInv([], closed, EdgeOf(o), o.StartLocation, o.GoalLocation) && Closure([], closed, EdgeOf(o))
    requires o.StartLocation in closed && |closed| <= o.MaximumNodesToConsider
    ensures GaveUp(NoPathFound, closed.Keys, o)
  {
    ExhaustedReach(closed, EdgeOf(o), o.StartLocation);
  }

  /** The reversed walk from the goal node is a path from the start to the goal
      without repeated locations, one location longer than the goal's G cost. */
  lemma TreePath(t: SearchTree, edge: (Vector3, Vector3) -> bool, start: Vector3, goal: Vector3)
    requires TreeOk(t, edge, start, goal)
    ensures var p := Reverse(Chain(t.Goal, t.Closed, start));
      && |p| == t.Goal.GCost + 1
      && p[0] == start && p[|p| - 1] == goal
      && NoDup(p)
      && IsPath(p, edge)
  {
    ChainPath(t.Goal, t.Closed, edge, start);
  }

  /** What `Pathfind` promises of a path: it runs from the start to the goal
      by moves of the search, without repeated locations, and holds at most one
      location more than the closed-node limit. */
  ghost predicate FoundPath(p: seq<Vector3>, o: AStarOptions) {
    && 1 <= |p| <= o.MaximumNodesToConsider + 1
    && p[0] == o.StartLocation && p[|p| - 1] == o.GoalLocation
    && NoDup(p)
    && IsPath(p, EdgeOf(o))
  }

  /** The reversed walk of a finished search within the node limit is a path
      `Pathfind` may return. */
  lemma TreeFoundPath(t: SearchTree, o: AStarOptions)
    requires TreeOk(t, EdgeOf(o), o.StartLocation, o.GoalLocation)
    requires t.Goal.GCost <= o.MaximumNodesToConsider
    ensures FoundPath(Reverse(Chain(t.Goal, t.Closed, o.StartLocation)), o)
  {
    TreePath(t, EdgeOf(o), o.StartLocation, o.GoalLocation);
  }

  /** A search that stops at its root yields the one-location path. */
  lemma RootPath(t: SearchTree, start: Vector3)
    requires ClosedOk(t.Closed, start) && LinkOk(t.Goal, t.Closed, start)
    ensures t.Goal == Root(start) ==> Reverse(Chain(t.Goal, t.Closed, start)) == [start]
  {
    if t.Goal == Root(start) {
      var c := Chain(t.Goal, t.Closed, start);
      assert c == [start];
      assert Reverse(c) == Reverse(c[1..]) + [c[0]];
      assert c[1..] == [];
    }
  }

  /** Every step of a search path moves to a candidate of the location it
      leaves: a readable cell at most one block away on each axis. */
  lemma PathSteps(p: seq<Vector3>, o: AStarOptions)
    requires IsPath(p, EdgeOf(o))
    ensures forall i :: 0 <= i < |p| - 1 ==>
      Some(p[i + 1]) in Candidates(o.Dimension, SafetyOptionsFor(o), o.GoalLocation, p[i])
    ensures forall i :: 1 <= i < |p| ==> p[i] in o.Dimension && KingMove(p[i - 1], p[i])
  {
    forall i | 1 <= i < |p| ensures p[i] in o.Dimension && KingMove(p[i - 1], p[i]) {
      assert EdgeOf(o)(p[i - 1], p[i]);
      CandidatesAreKingMoves(o.Dimension, SafetyOptionsFor(o), o.GoalLocation, p[i - 1], p[i]);
    }
  }

  /** The loop of `Pathfind`: the locations met following `ParentNode` from the
      goal node until `null`. */
  method CollectPath(t: SearchTree, ghost start: Vector3) returns (blockPath: seq<Vector3>)
    requires ClosedOk(t.Closed, start) && LinkOk(t.Goal, t.Closed, start)
    ensures blockPath == Chain(t.Goal, t.Closed, start)
  {
    blockPath := [];
    var current: Option<Node> := Some(t.Goal);
    ghost var whole := Chain(t.Goal, t.Closed, start);
    while current.Some?
      invariant current.Some? ==> LinkOk(current.value, t.Closed, start)
      invariant current.Some? ==> blockPath + Chain(current.value, t.Closed, start) == whole
      invariant current.None? ==> blockPath == whole
      decreases if current.Some? then current.value.GCost + 1 else 0
    {
      var n := current.value;
      ghost var rest := Chain(n, t.Closed, start);
      blockPath := blockPath + [n.Location];
      if n.Parent.Some? {
        current := Some(t.Closed[n.Parent.value]);
        assert rest == [n.Location] + Chain(current.value, t.Closed, start);
        assert blockPath + Chain(current.value, t.Closed, start) == whole;
      } else {
        current := None;
        assert rest == [n.Location];
      }
    }
  }

  /** `Pathfind`: the blocks from the start to the goal, found by walking the
      goal node's parents and reversing, or why the search gave up. */
  method Pathfind(a: AStar, dist: (Vector3, Vector3) -> real)
    returns (r: Result<seq<Vector3>, SearchError>, ghost searched: set<Vector3>)
    ensures r.Ok? ==> FoundPath(r.value, a.Options)
    ensures r.Err? ==> r.error != ConstructionFailed && GaveUp(r.error, searched, a.Options)
    ensures r == Err(UnreadableCell) ==> a.Options.AllowYAxisFlood
    ensures a.Options.MaximumNodesToConsider <= 0 ==> r == Err(NodeLimitExceeded)
    ensures a.Options.StartLocation == a.Options.GoalLocation && a.Options.MaximumNodesToConsider >= 1 ==>
      r == Ok([a.Options.StartLocation])
  {
    var o := a.Options;
    var found;
    found, searched := IterateUntilGoalBlockReached(a, dist);
    if found.Err? {
      return Err(found.error), searched;
    }
    var t := found.value;
    var blockPath := CollectPath(t, o.StartLocation);
    var p := Reverse(blockPath);
    TreeFoundPath(t, o);
    assert FoundPath(p, o);
    RootPath(t, o.StartLocation);
    assert o.StartLocation == o.GoalLocation && o.MaximumNodesToConsider >= 1 ==> p == [o.StartLocation];
    return Ok(p), searched;
  }
}
