/** The bidirectional A* search (`BidirectionalAStar`): a forward search from
    the start and a reverse search from the goal take one round each in turn,
    and the search ends when the two meet, either when one pops a location the
    other has closed or when one generates a location the other has open. */
module BidirectionalSearch {
  import opened Wrappers
  import opened Lists
  import opened VectorUtils
  import opened World
  import opened SafetyOptions
  import opened BlockSafetyChecker
  import opened Region
  import opened PathfinderOptions
  import opened SearchNodes
  import AStarSearch

  /** A `BidirectionalAStar` object once its constructor has read both end blocks. */
  datatype BidirectionalAStar = BidirectionalAStar(Options: AStarOptions, StartBlock: Cell, EndBlock: Cell)

  /** The constructor: it throws unless both the start and the goal block can be read. */
  function NewBidirectionalAStar(options: AStarOptions): (r: Result<BidirectionalAStar, SearchError>)
    ensures r.Ok? <==> options.StartLocation in options.Dimension && options.GoalLocation in options.Dimension
    ensures r.Ok? ==> r.value.Options == options
    ensures r.Err? ==> r.error == ConstructionFailed
  {
    var grid := options.Dimension;
    if options.StartLocation in grid && options.GoalLocation in grid then
      Ok(BidirectionalAStar(options, grid[options.StartLocation], grid[options.GoalLocation]))
    else
      Err(ConstructionFailed)
  }

  // ---- Candidate cells

  /** The locations scanned around a closed location: its flat 3x3
      neighbourhood, or in vertical mode `CuboidRegion.GetAdjacentPositions`,
      which is given as `adjacent`. */
  function SurroundingLocations(vertical: bool, adjacent: Vector3 -> seq<Vector3>, center: Vector3): seq<Vector3> {
    if vertical then adjacent(center) else Region.Locations(FromCenterLocation(center, 1, true))
  }

  /** The scan stops after a readable, valid location at the target of the
      direction: the goal going forward, the start going back. */
  predicate StopsAt(grid: Grid, target: Vector3, loc: Vector3) {
    loc in grid && grid[loc].IsValid && loc == target
  }

  /** What one scanned location adds to the candidate list, or `None` when the
      scan dereferences an unreadable cell: nothing when unreadable, invalid or
      unsafe; the target itself regardless of safety; in vertical mode the cell
      below and the cell above, each only if its own check passes, then the cell
      itself (both are checked first, and an unreadable one crashes the check);
      otherwise the cell to fall to, to jump onto, or the cell itself. */
  function ScanContribution(grid: Grid, so: BlockSafetyCheckerOptions, target: Vector3, loc: Vector3)
    : Option<seq<Option<Vector3>>>
  {
    if loc !in grid || !grid[loc].IsValid then Some([])
    else if loc == target then Some([Some(loc)])
    else
      var check := RunBlockSafetyCheck(grid, loc, so);
      if !check.IsSafe then Some([])
      else if so.AllowYAxisFlood then
        var below, above := Below(loc, 1), Above(loc, 1);
        if below !in grid || above !in grid then None
        else
          Some((if RunBlockSafetyCheck(grid, below, so).IsSafe then [Some(below)] else [])
               + (if RunBlockSafetyCheck(grid, above, so).IsSafe then [Some(above)] else [])
               + [Some(loc)])
      else
        Some([if check.CanSafelyFallFrom then AStarSearch.Lookup(grid, Below(loc, 1))
              else if check.CanSafelyJumpOnto then AStarSearch.Lookup(grid, Above(loc, 1))
              else Some(loc)])
  }

  /** A crash propagates; otherwise `prefix` goes in front. */
  function Then(prefix: seq<Option<Vector3>>, r: Option<seq<Option<Vector3>>>): Option<seq<Option<Vector3>>> {
    if r.None? then None else Some(prefix + r.value)
  }

  /** The candidate list of a scan over `locs`, which stops after the target. */
  function ScanOf(grid: Grid, so: BlockSafetyCheckerOptions, target: Vector3, locs: seq<Vector3>)
    : Option<seq<Option<Vector3>>>
  {
    if locs == [] then Some([])
    else
      var c := ScanContribution(grid, so, target, locs[0]);
      if c.None? then None
      else if StopsAt(grid, target, locs[0]) then c
      else Then(c.value, ScanOf(grid, so, target, locs[1..]))
  }

  /** The candidate list of a closed location in one direction. */
  function BiCandidates(grid: Grid, so: BlockSafetyCheckerOptions, adjacent: Vector3 -> seq<Vector3>,
                        target: Vector3, center: Vector3): Option<seq<Option<Vector3>>> {
    ScanOf(grid, so, target, SurroundingLocations(so.AllowYAxisFlood, adjacent, center))
  }

  /** The body of a scanning loop for one location. */
  method ScanAt(grid: Grid, so: BlockSafetyCheckerOptions, target: Vector3, loc: Vector3)
    returns (add: Option<seq<Option<Vector3>>>)
    ensures add == ScanContribution(grid, so, target, loc)
  {
    if loc !in grid || !grid[loc].IsValid {
      return Some([]);
    }
    if loc == target {
      return Some([Some(loc)]);
    }
    var check := RunBlockSafetyCheck(grid, loc, so);
    if !check.IsSafe {
      return Some([]);
    }
    if so.AllowYAxisFlood {
      var below, above := Below(loc, 1), Above(loc, 1);
      if below !in grid || above !in grid {
        return None;
      }
      var bottom := RunBlockSafetyCheck(grid, below, so);
      var top := RunBlockSafetyCheck(grid, above, so);
      var blocks: seq<Option<Vector3>> := [];
      if bottom.IsSafe {
        blocks := blocks + [Some(below)];
      }
      ghost var lower := blocks;
      assert lower == (if bottom.IsSafe then [Some(below)] else []);
      if top.IsSafe {
        blocks := blocks + [Some(above)];
      }
      assert blocks == lower + (if top.IsSafe then [Some(above)] else []);
      blocks := blocks + [Some(loc)];
      return Some(blocks);
    }
    if check.CanSafelyFallFrom {
      return Some([AStarSearch.Lookup(grid, Below(loc, 1))]);
    } else if check.CanSafelyJumpOnto {
      return Some([AStarSearch.Lookup(grid, Above(loc, 1))]);
    }
    return Some([Some(loc)]);
  }

  /** A scanning loop of a round (`for (const location of surroundingLocations)`). */
  method GatherScan(grid: Grid, so: BlockSafetyCheckerOptions, target: Vector3, locs: seq<Vector3>)
    returns (r: Option<seq<Option<Vector3>>>)
    ensures r == ScanOf(grid, so, target, locs)
  {
    var blocks: seq<Option<Vector3>> := [];
    var i := 0;
    assert locs[0..] == locs;
    ghost var whole := ScanOf(grid, so, target, locs);
    assert whole.Some? ==> blocks + whole.value == whole.value;
    while i < |locs|
      invariant 0 <= i <= |locs|
      invariant ScanOf(grid, so, target, locs) == Then(blocks, ScanOf(grid, so, target, locs[i..]))
    {
      var add := ScanAt(grid, so, target, locs[i]);
      ScanStep(grid, so, target, locs, i, blocks);
      if add.None? {
        return None;
      }
      blocks := blocks + add.value;
      if StopsAt(grid, target, locs[i]) {
        return Some(blocks);
      }
      i := i + 1;
    }
    assert locs[i..] == [];
    assert blocks + [] == blocks;
    return Some(blocks);
  }

  /** One more location of a scan: a crash ends it, the target stops it, and
      otherwise the rest of the scan follows. */
  lemma ScanStep(grid: Grid, so: BlockSafetyCheckerOptions, target: Vector3, locs: seq<Vector3>, i: nat,
                 blocks: seq<Option<Vector3>>)
    requires i < |locs|
    requires ScanOf(grid, so, target, locs) == Then(blocks, ScanOf(grid, so, target, locs[i..]))
    ensures var add := ScanContribution(grid, so, target, locs[i]);
      && (add.None? ==> ScanOf(grid, so, target, locs) == None)
      && (add.Some? && StopsAt(grid, target, locs[i]) ==> ScanOf(grid, so, target, locs) == Some(blocks + add.value))
      && (add.Some? && !StopsAt(grid, target, locs[i]) ==>
            ScanOf(grid, so, target, locs) == Then(blocks + add.value, ScanOf(grid, so, target, locs[i + 1..])))
  {
    assert locs[i..][0] == locs[i] && locs[i..][1..] == locs[i + 1..];
    var add := ScanContribution(grid, so, target, locs[i]);
    var tail := ScanOf(grid, so, target, locs[i + 1..]);
    assert add.Some? && tail.Some? ==> blocks + (add.value + tail.value) == (blocks + add.value) + tail.value;
  }

  /** A candidate comes from one scanned location. */
  lemma {:induction false} ScanMembership(grid: Grid, so: BlockSafetyCheckerOptions, target: Vector3,
                                          locs: seq<Vector3>, c: Option<Vector3>)
    requires ScanOf(grid, so, target, locs).Some? && c in ScanOf(grid, so, target, locs).value
    ensures exists k :: 0 <= k < |locs| && ScanContribution(grid, so, target, locs[k]).Some? &&
                        c in ScanContribution(grid, so, target, locs[k]).value
    decreases |locs|
  {
    var first := ScanContribution(grid, so, target, locs[0]);
    if !StopsAt(grid, target, locs[0]) && c !in first.value {
      ScanMembership(grid, so, target, locs[1..], c);
      var k :| 0 <= k < |locs[1..]| && ScanContribution(grid, so, target, locs[1..][k]).Some? &&
        c in ScanContribution(grid, so, target, locs[1..][k]).value;
      assert locs[1..][k] == locs[k + 1];
    }
  }

  /** Outside vertical mode a location contributes what it contributes to the
      one-directional search. */
  lemma ScanNonVertical(grid: Grid, so: BlockSafetyCheckerOptions, target: Vector3, loc: Vector3)
    requires !so.AllowYAxisFlood
    ensures ScanContribution(grid, so, target, loc) == Some(AStarSearch.Contribution(grid, so, target, loc))
  {
    if loc in grid && grid[loc].IsValid && loc != target {
      var check := RunBlockSafetyCheck(grid, loc, so);
      var last := if check.CanSafelyFallFrom then AStarSearch.Lookup(grid, Below(loc, 1))
                  else if check.CanSafelyJumpOnto then AStarSearch.Lookup(grid, Above(loc, 1))
                  else Some(loc);
      assert [] + [last] == [last];
    }
  }

  /** Outside vertical mode (and for an entity at least one block high) a scan
      never crashes and puts nothing missing on the candidate list. */
  lemma {:induction false} ScanNeverCrashes(grid: Grid, so: BlockSafetyCheckerOptions, target: Vector3,
                                            locs: seq<Vector3>)
    requires !so.AllowYAxisFlood && so.EntityHeight >= 1
    ensures ScanOf(grid, so, target, locs).Some? && None !in ScanOf(grid, so, target, locs).value
    decreases |locs|
  {
    if locs != [] {
      ScanNonVertical(grid, so, target, locs[0]);
      AStarSearch.ContributionMeaning(grid, so, target, locs[0]);
      ScanNeverCrashes(grid, so, target, locs[1..]);
    }
  }

  /** A readable, valid target among the scanned locations is always a
      candidate, and the scan stops there: it is the last candidate. */
  lemma {:induction false} ScanStopsAtTarget(grid: Grid, so: BlockSafetyCheckerOptions, target: Vector3,
                                             locs: seq<Vector3>)
    requires !so.AllowYAxisFlood
    requires target in locs && target in grid && grid[target].IsValid
    ensures var r := ScanOf(grid, so, target, locs);
      r.Some? && r.value != [] && r.value[|r.value| - 1] == Some(target)
    decreases |locs|
  {
    if locs[0] != target {
      assert target in locs[1..];
      ScanNonVertical(grid, so, target, locs[0]);
      ScanStopsAtTarget(grid, so, target, locs[1..]);
    }
  }

  /** Outside vertical mode a scan yields a part of what the one-directional
      search gathers over the same locations: it differs only in stopping at
      the target. */
  lemma ScanWithinSurrounding(grid: Grid, so: BlockSafetyCheckerOptions, target: Vector3,
                              locs: seq<Vector3>, c: Option<Vector3>)
    requires !so.AllowYAxisFlood
    requires ScanOf(grid, so, target, locs).Some? && c in ScanOf(grid, so, target, locs).value
    ensures c in AStarSearch.SurroundingBlocksOf(grid, so, target, locs)
  {
    ScanMembership(grid, so, target, locs, c);
    var k :| 0 <= k < |locs| && ScanContribution(grid, so, target, locs[k]).Some? &&
      c in ScanContribution(grid, so, target, locs[k]).value;
    ScanNonVertical(grid, so, target, locs[k]);
    AStarSearch.SurroundingBlocksMembership(grid, so, target, locs, c);
  }

  /** Outside vertical mode every candidate of a location is also a candidate of
      the one-directional search, so a readable cell one king move away; a
      readable, valid target next to it is the last candidate. */
  lemma FlatCandidates(grid: Grid, so: BlockSafetyCheckerOptions, adjacent: Vector3 -> seq<Vector3>,
                       target: Vector3, center: Vector3)
    requires !so.AllowYAxisFlood && so.EntityHeight >= 1
    ensures var r := BiCandidates(grid, so, adjacent, target, center);
      && r.Some? && None !in r.value
      && (forall c :: c in r.value ==> c in AStarSearch.Candidates(grid, so, target, center))
      && (forall b :: Some(b) in r.value ==> b in grid && AStarSearch.KingMove(center, b))
      && (target in grid && grid[target].IsValid && target.y == center.y &&
          Abs(target.x - center.x) <= 1 && Abs(target.z - center.z) <= 1
          ==> r.value != [] && r.value[|r.value| - 1] == Some(target))
  {
    var locs := Region.Locations(FromCenterLocation(center, 1, true));
    ScanNeverCrashes(grid, so, target, locs);
    var r := ScanOf(grid, so, target, locs);
    forall c | c in r.value ensures c in AStarSearch.Candidates(grid, so, target, center) {
      ScanWithinSurrounding(grid, so, target, locs, c);
    }
    forall b | Some(b) in r.value ensures b in grid && AStarSearch.KingMove(center, b) {
      AStarSearch.CandidatesAreKingMoves(grid, so, target, center, b);
    }
    if target in grid && grid[target].IsValid && target.y == center.y &&
       Abs(target.x - center.x) <= 1 && Abs(target.z - center.z) <= 1 {
      FlatNeighbourhood(center);
      ScanStopsAtTarget(grid, so, target, locs);
    }
  }

  // ---- One direction of a round

  /** The moves of one direction: `b` may become a child of `a` when it is
      among the candidates gathered around `a` by a scan towards `target`. */
  function EdgeTowards(o: AStarOptions, adjacent: Vector3 -> seq<Vector3>, target: Vector3): (Vector3, Vector3) -> bool {
    (a: Vector3, b: Vector3) =>
      var r := BiCandidates(o.Dimension, SafetyOptionsFor(o), adjacent, target, a);
      r.Some? && Some(b) in r.value
  }

  /** How the processing loop of one direction ends. */
  datatype Step =
    | Expanded(Open: seq<Node>)
    | Met(Own: Node, Other: Node)
    | Crashed

  /** A processing loop of a round: each candidate becomes a child of `next`; a
      missing one crashes, a closed one is skipped, one found in the other
      direction's open list at a nonzero index ends the search, a new one is
      opened and an open one is re-parented when the child is strictly cheaper.
      Without a meeting or a crash every candidate ends up closed or open. */
  method RelaxAgainst(open: seq<Node>, closed: map<Vector3, Node>, next: Node, blocks: seq<Option<Vector3>>,
                      other: seq<Node>, ghost edge: (Vector3, Vector3) -> bool, ghost root: Vector3)
    returns (e: Step)
    requires next.Location in closed && closed[next.Location] == next
    requires forall j :: 0 <= j < |blocks| && blocks[j].Some? ==> edge(next.Location, blocks[j].value)
    requires forall b :: edge(next.Location, b) ==> Some(b) in blocks
    requires Frontier(open, closed, edge, root) && ClosureExcept(open, closed, edge, next.Location)
    ensures e.Expanded? ==> Frontier(e.Open, closed, edge, root) && Closure(e.Open, closed, edge)
    ensures e.Expanded? ==> e.Open == RelaxAll(open, closed, next, blocks)
    ensures e.Expanded? ==> RelaxedFrom(e.Open, open, next, blocks, Fresh(NodeLocations(open), closed, blocks))
    ensures e.Met? ==> var k := FirstIndex(NodeLocations(other), e.Own.Location);
      && e.Own.Parent == Some(next.Location) && e.Own.GCost == next.GCost + 1
      && LinkOk(e.Own, closed, root) && EdgeOk(e.Own, edge) && e.Own.Location !in closed
      && Truthy(k) && e.Other == other[k.value] && e.Other.Location == e.Own.Location
    ensures e.Crashed? ==> None in blocks
  {
    var list := open;
    var i := 0;
    while i < |blocks|
      invariant 0 <= i <= |blocks|
      invariant Frontier(list, closed, edge, root) && ClosureExcept(list, closed, edge, next.Location)
      invariant forall j :: 0 <= j < i && blocks[j].Some? ==> Covered(blocks[j].value, list, closed)
      invariant list == RelaxAll(open, closed, next, blocks[..i])
    {
      if blocks[i].None? {
        return Crashed;
      }
      var c := blocks[i].value;
      var child := Node(c, Some(next.Location), next.GCost + 1);
      assert LinkOk(child, closed, root) && EdgeOk(child, edge) && child.GCost <= |closed|;
      if c !in closed {
        var met := GetIndexOfNodeIfInList(child, other);
        if Truthy(met) {
          NodesFirstIndex(other, c);
          assert met == FirstIndex(NodeLocations(other), c);
          return Met(child, other[met.value]);
        }
      }
      assert blocks[i] == Some(c);
      RelaxAllSnoc(open, closed, next, blocks, i);
      ghost var before := list;
      list := RelaxCandidate(list, closed, next, c, edge, root);
      assert list == RelaxAll(open, closed, next, blocks[..i + 1]);
      forall j | 0 <= j < i + 1 && blocks[j].Some? ensures Covered(blocks[j].value, list, closed) {
        if j < i {
          assert Covered(blocks[j].value, before, closed);
        }
      }
      i := i + 1;
    }
    assert Closure(list, closed, edge) by {
      forall l, b | l in closed && edge(l, b) ensures Covered(b, list, closed) {
        if l == next.Location {
          var j :| 0 <= j < |blocks| && blocks[j] == Some(b);
        }
      }
    }
    assert blocks[..|blocks|] == blocks;
    FrontierDistinct(open, closed, edge, root);
    RelaxAllMeaning(open, closed, next, blocks);
    return Expanded(list);
  }

  /** One direction of a round: scan around the location just closed, then
      process the candidates against the other direction's open list. A crash
      can only happen in vertical mode. */
  method ExpandFrom(o: AStarOptions, so: BlockSafetyCheckerOptions, adjacent: Vector3 -> seq<Vector3>, target: Vector3,
                    open: seq<Node>, closed: map<Vector3, Node>, next: Node, other: seq<Node>, ghost root: Vector3)
    returns (e: Step)
    requires so == SafetyOptionsFor(o)
    requires next.Location in closed && closed[next.Location] == next
    requires Frontier(open, closed, EdgeTowards(o, adjacent, target), root)
    requires ClosureExcept(open, closed, EdgeTowards(o, adjacent, target), next.Location)
    ensures e.Expanded? ==> Frontier(e.Open, closed, EdgeTowards(o, adjacent, target), root)
    ensures e.Expanded? ==> Closure(e.Open, closed, EdgeTowards(o, adjacent, target))
    ensures e.Met? ==> var k := FirstIndex(NodeLocations(other), e.Own.Location);
      && e.Own.Parent == Some(next.Location) && e.Own.GCost == next.GCost + 1
      && LinkOk(e.Own, closed, root) && EdgeOk(e.Own, EdgeTowards(o, adjacent, target))
      && e.Own.Location !in closed
      && Truthy(k) && e.Other == other[k.value] && e.Other.Location == e.Own.Location
    ensures e.Crashed? ==> o.AllowYAxisFlood
  {
    ghost var edge := EdgeTowards(o, adjacent, target);
    var locs: seq<Vector3>;
    if !so.AllowYAxisFlood {
      locs := GetAllLocationsInRegion(FromCenterLocation(next.Location, 1, true));
    } else {
      locs := adjacent(next.Location);
    }
    assert locs == SurroundingLocations(so.AllowYAxisFlood, adjacent, next.Location);
    var scan := GatherScan(o.Dimension, so, target, locs);
    if !so.AllowYAxisFlood {
      ScanNeverCrashes(o.Dimension, so, target, locs);
    }
    if scan.None? {
      return Crashed;
    }
    var blocks := scan.value;
    assert forall j :: 0 <= j < |blocks| && blocks[j].Some? ==> edge(next.Location, blocks[j].value) by {
      forall j | 0 <= j < |blocks| && blocks[j].Some? ensures edge(next.Location, blocks[j].value) {
        assert blocks[j] in blocks;
      }
    }
    assert forall b :: edge(next.Location, b) ==> Some(b) in blocks;
    e := RelaxAgainst(open, closed, next, blocks, other, edge, root);
  }

  // ---- Meetings and the node list

  /** Where the two searches met: at pop time, the two popped nodes; at
      expansion time, the forward node and the reverse node at the meeting
      location. `FClosed` and `RClosed` are the two closed lists. */
  datatype Meeting = Meeting(AtPop: bool, Forward: Node, Backward: Node,
                             FClosed: map<Vector3, Node>, RClosed: map<Vector3, Node>)

  /** Both walks of a meeting are well defined and reached by moves of their
      direction; neither meeting node is closed in its own direction. A pop-time
      meeting has a popped location closed in the other direction. An
      expansion-time meeting joins two nodes at one location that is not the
      start; the goal is closed in the reverse direction and closed forward only
      when it is the start. */
  ghost predicate MeetingOk(m: Meeting, fedge: (Vector3, Vector3) -> bool, redge: (Vector3, Vector3) -> bool,
                            start: Vector3, goal: Vector3) {
    && ClosedOk(m.FClosed, start) && ClosedOk(m.RClosed, goal)
    && LinkOk(m.Forward, m.FClosed, start) && LinkOk(m.Backward, m.RClosed, goal)
    && EdgeOk(m.Forward, fedge) && EdgeOk(m.Backward, redge)
    && (forall l :: l in m.FClosed ==> EdgeOk(m.FClosed[l], fedge))
    && (forall l :: l in m.RClosed ==> EdgeOk(m.RClosed[l], redge))
    && m.Forward.Location !in m.FClosed && m.Backward.Location !in m.RClosed
    && (m.AtPop ==> m.Forward.Location in m.RClosed || m.Backward.Location in m.FClosed)
    && (!m.AtPop ==>
          && m.Forward.Location == m.Backward.Location
          && m.Forward.Parent.Some?
          && goal in m.RClosed
          && (goal in m.FClosed ==> goal == start))
  }

  /** The locations of the node list a meeting resolves with. At pop time: the
      first and last location of the forward walk, then the reverse walk pushed
      onto them. At expansion time: the reversed forward walk with the reverse
      walk pushed onto it, reversed again. */
  ghost function NodeListOf(m: Meeting, start: Vector3, goal: Vector3): seq<Vector3>
    requires ClosedOk(m.FClosed, start) && LinkOk(m.Forward, m.FClosed, start)
    requires ClosedOk(m.RClosed, goal) && LinkOk(m.Backward, m.RClosed, goal)
  {
    var f := Chain(m.Forward, m.FClosed, start);
    var b := Chain(m.Backward, m.RClosed, goal);
    if m.AtPop then PushWalk([f[0], f[|f| - 1]], b)
    else Reverse(PushWalk(Reverse(f), b))
  }

  /** One step of a path-building loop: `if(!this.GetIndexOfNodeIfInList(currentNode, nodeList)) nodeList.push(currentNode)`. */
  method PushUnlessListed(list: seq<Node>, n: Node) returns (out: seq<Node>)
    ensures NodeLocations(out) ==
      if Truthy(FirstIndex(NodeLocations(list), n.Location)) then NodeLocations(list)
      else NodeLocations(list) + [n.Location]
  {
    var idx := GetIndexOfNodeIfInList(n, list);
    NodesFirstIndex(list, n.Location);
    assert idx == FirstIndex(NodeLocations(list), n.Location);
    out := list;
    if !Truthy(idx) {
      out := out + [n];
      assert NodeLocations(out) == NodeLocations(list) + [n.Location];
    }
  }

  /** A path-building loop: walks `ParentNode` from `n` until `null`, pushing
      each node unless `GetIndexOfNodeIfInList` finds it at a truthy index. */
  method WalkInto(list: seq<Node>, n: Node, closed: map<Vector3, Node>, ghost root: Vector3) returns (out: seq<Node>)
    requires ClosedOk(closed, root) && LinkOk(n, closed, root)
    ensures NodeLocations(out) == PushWalk(NodeLocations(list), Chain(n, closed, root))
  {
    out := list;
    var current: Option<Node> := Some(n);
    ghost var whole := PushWalk(NodeLocations(list), Chain(n, closed, root));
    while current.Some?
      invariant current.Some? ==> LinkOk(current.value, closed, root)
      invariant current.Some? ==> PushWalk(NodeLocations(out), Chain(current.value, closed, root)) == whole
      invariant current.None? ==> NodeLocations(out) == whole
      decreases if current.Some? then current.value.GCost + 1 else 0
    {
      var c := current.value;
      ghost var walk := Chain(c, closed, root);
      ghost var before := NodeLocations(out);
      out := PushUnlessListed(out, c);
      assert PushWalk(before, walk) == PushWalk(NodeLocations(out), walk[1..]);
      if c.Parent.Some? {
        current := Some(closed[c.Parent.value]);
        assert walk[1..] == Chain(current.value, closed, root);
      } else {
        current := None;
        assert walk[1..] == [];
      }
    }
  }

  /** The walk from a node that is not closed pushes every location onto an
      empty list. */
  lemma FreshWalk(n: Node, closed: map<Vector3, Node>, root: Vector3)
    requires ClosedOk(closed, root) && LinkOk(n, closed, root) && n.Location !in closed
    ensures PushWalk([], Chain(n, closed, root)) == Chain(n, closed, root)
  {
    ChainNoDup(n, closed, root);
    PushWalkFresh([], Chain(n, closed, root));
  }

  /** The node list of a pop-time meeting (`nodeList = [nodeList[0], nodeList[nodeList.length - 1]]`). */
  method PopMeetingList(next: Node, closed: map<Vector3, Node>, rnext: Node, rclosed: map<Vector3, Node>,
                        ghost start: Vector3, ghost goal: Vector3) returns (nodeList: seq<Node>)
    requires ClosedOk(closed, start) && LinkOk(next, closed, start) && next.Location !in closed
    requires ClosedOk(rclosed, goal) && LinkOk(rnext, rclosed, goal)
    ensures NodeLocations(nodeList) == NodeListOf(Meeting(true, next, rnext, closed, rclosed), start, goal)
  {
    ghost var f := Chain(next, closed, start);
    nodeList := WalkInto([], next, closed, start);
    FreshWalk(next, closed, start);
    assert NodeLocations(nodeList) == f;
    nodeList := [nodeList[0], nodeList[|nodeList| - 1]];
    assert NodeLocations(nodeList) == [f[0], f[|f| - 1]];
    nodeList := WalkInto(nodeList, rnext, rclosed, goal);
  }

  /** The node list of an expansion-time meeting: the forward walk, reversed,
      the reverse walk pushed on, reversed again. */
  method JoinedMeetingList(fnode: Node, closed: map<Vector3, Node>, rnode: Node, rclosed: map<Vector3, Node>,
                           ghost start: Vector3, ghost goal: Vector3) returns (nodeList: seq<Node>)
    requires ClosedOk(closed, start) && LinkOk(fnode, closed, start) && fnode.Location !in closed
    requires ClosedOk(rclosed, goal) && LinkOk(rnode, rclosed, goal)
    ensures NodeLocations(nodeList) == NodeListOf(Meeting(false, fnode, rnode, closed, rclosed), start, goal)
  {
    ghost var f := Chain(fnode, closed, start);
    ghost var b := Chain(rnode, rclosed, goal);
    nodeList := WalkInto([], fnode, closed, start);
    FreshWalk(fnode, closed, start);
    ghost var forward := nodeList;
    nodeList := Reverse(nodeList);
    NodeLocationsReverse(forward);
    ghost var reversed := nodeList;
    nodeList := WalkInto(nodeList, rnode, rclosed, goal);
    ghost var joined := nodeList;
    nodeList := Reverse(nodeList);
    NodeLocationsReverse(joined);
    assert NodeLocations(joined) == PushWalk(Reverse(f), b);
  }

  // ---- The search

  /** The rest of a round once both popped nodes are closed: the forward
      direction scans and processes its candidates, then the reverse direction
      does the same against the updated forward open list. `done` when the two
      met or a scan crashed. */
  method ExpandRound(o: AStarOptions, so: BlockSafetyCheckerOptions, adjacent: Vector3 -> seq<Vector3>,
                     open: seq<Node>, closed: map<Vector3, Node>, next: Node,
                     ropen: seq<Node>, rclosed: map<Vector3, Node>, rnext: Node)
    returns (done: bool, r: Result<seq<Node>, SearchError>, open': seq<Node>, ropen': seq<Node>, ghost m: Meeting)
    requires so == SafetyOptionsFor(o)
    requires var start, goal := o.StartLocation, o.GoalLocation;
      && Frontier(open, closed, EdgeTowards(o, adjacent, goal), start)
      && Frontier(ropen, rclosed, EdgeTowards(o, adjacent, start), goal)
      && next.Location in closed && closed[next.Location] == next
      && rnext.Location in rclosed && rclosed[rnext.Location] == rnext
      && start in closed && goal in rclosed && (goal in closed ==> goal == start)
      && ClosureExcept(open, closed, EdgeTowards(o, adjacent, goal), next.Location)
      && ClosureExcept(ropen, rclosed, EdgeTowards(o, adjacent, start), rnext.Location)
    ensures var start, goal := o.StartLocation, o.GoalLocation;
      !done ==> && Frontier(open', closed, EdgeTowards(o, adjacent, goal), start)
                && Frontier(ropen', rclosed, EdgeTowards(o, adjacent, start), goal)
                && Closure(open', closed, EdgeTowards(o, adjacent, goal))
                && Closure(ropen', rclosed, EdgeTowards(o, adjacent, start))
    ensures var start, goal := o.StartLocation, o.GoalLocation;
      done && r.Ok? ==> && MeetingOk(m, EdgeTowards(o, adjacent, goal), EdgeTowards(o, adjacent, start), start, goal)
                        && NodeLocations(r.value) == NodeListOf(m, start, goal)
    ensures done && r.Err? ==> r.error == UnreadableCell && o.AllowYAxisFlood
  {
    var start, goal := o.StartLocation, o.GoalLocation;
    m := Meeting(false, next, rnext, closed, rclosed);
    open', ropen' := open, ropen;
    var forward := ExpandFrom(o, so, adjacent, goal, open, closed, next, ropen, start);
    if forward.Crashed? {
      return true, Err(UnreadableCell), open', ropen', m;
    } else if forward.Met? {
      var nodeList := JoinedMeetingList(forward.Own, closed, forward.Other, rclosed, start, goal);
      m := Meeting(false, forward.Own, forward.Other, closed, rclosed);
      return true, Ok(nodeList), open', ropen', m;
    }
    open' := forward.Open;
    var backward := ExpandFrom(o, so, adjacent, start, ropen, rclosed, rnext, open', goal);
    if backward.Crashed? {
      return true, Err(UnreadableCell), open', ropen', m;
    } else if backward.Met? {
      var nodeList := JoinedMeetingList(backward.Other, closed, backward.Own, rclosed, start, goal);
      m := Meeting(false, backward.Other, backward.Own, closed, rclosed);
      return true, Ok(nodeList), open', ropen', m;
    }
    ropen' := backward.Open;
    return false, Err(NoPathFound), open', ropen', m;
  }

  /** Why the two searches gave up, in terms of `fsearched` and `rsearched`,
      the locations each closed: the node limit stops them once both have
      closed that many locations, each reachable from its own root, and the
      goal is not closed forward, nor the start in reverse, unless the two are
      the same; an exhausted open list means that one direction closed every
      location reachable from its root, so that, when start and goal differ,
      the start reaches no goal or the goal reaches no start. */
  ghost predicate GaveUp(e: SearchError, fsearched: set<Vector3>, rsearched: set<Vector3>,
                         o: AStarOptions, adjacent: Vector3 -> seq<Vector3>) {
    var start, goal := o.StartLocation, o.GoalLocation;
    var fedge, redge := EdgeTowards(o, adjacent, goal), EdgeTowards(o, adjacent, start);
    && (goal in fsearched ==> goal == start)
    && (start in rsearched ==> start == goal)
    && (e == NodeLimitExceeded ==>
          && (o.MaximumNodesToConsider >= 1 ==>
                |fsearched| == o.MaximumNodesToConsider && |rsearched| == o.MaximumNodesToConsider)
          && (forall l :: l in fsearched ==> Reachable(fedge, start, l))
          && (forall l :: l in rsearched ==> Reachable(redge, goal, l)))
    && (e == NoPathFound ==>
          && ((forall l :: Reachable(fedge, start, l) <==> l in fsearched) ||
              (forall l :: Reachable(redge, goal, l) <==> l in rsearched))
          && (start != goal ==> !Reachable(fedge, start, goal) || !Reachable(redge, goal, start)))
  }

  /** What holds between rounds: both frontiers, both closures, one location
      closed per round and direction within the node limit, the roots closed
      after the first round, the goal closed forward and the start closed in
      reverse only when they are the same location. */
  ghost predicate Searching(o: AStarOptions, adjacent: Vector3 -> seq<Vector3>, open: seq<Node>,
                            closed: map<Vector3, Node>, ropen: seq<Node>, rclosed: map<Vector3, Node>) {
    var start, goal := o.StartLocation, o.GoalLocation;
    var fedge, redge := EdgeTowards(o, adjacent, goal), EdgeTowards(o, adjacent, start);
    && Frontier(open, closed, fedge, start) && Frontier(ropen, rclosed, redge, goal)
    && Closure(open, closed, fedge) && Closure(ropen, rclosed, redge)
    && |closed| == |rclosed|
    && (closed == map[] ==> open == [Root(start)] && ropen == [Root(goal)])
    && (closed != map[] ==> |closed| <= o.MaximumNodesToConsider && start in closed && goal in rclosed)
    && (goal in closed ==> goal == start)
    && (start in rclosed ==> start == goal)
  }

  /** One round of the loop below the node limit: pop the cheapest node of
      each direction; meet when either is closed in the other direction;
      otherwise close both and expand forward, then backward. */
  method Round(o: AStarOptions, so: BlockSafetyCheckerOptions, adjacent: Vector3 -> seq<Vector3>,
               dist: (Vector3, Vector3) -> real,
               open: seq<Node>, closed: map<Vector3, Node>, ropen: seq<Node>, rclosed: map<Vector3, Node>)
    returns (done: bool, r: Result<seq<Node>, SearchError>, open': seq<Node>, closed': map<Vector3, Node>,
             ropen': seq<Node>, rclosed': map<Vector3, Node>, ghost m: Meeting)
    requires so == SafetyOptionsFor(o)
    requires Searching(o, adjacent, open, closed, ropen, rclosed)
    requires |open| > 0 && |ropen| > 0 && |closed| < o.MaximumNodesToConsider
    ensures !done ==> Searching(o, adjacent, open', closed', ropen', rclosed') && |closed'| == |closed| + 1
    ensures var start, goal := o.StartLocation, o.GoalLocation;
      done && r.Ok? ==> && MeetingOk(m, EdgeTowards(o, adjacent, goal), EdgeTowards(o, adjacent, start), start, goal)
                        && NodeLocations(r.value) == NodeListOf(m, start, goal)
    ensures done && r.Err? ==> r.error == UnreadableCell && o.AllowYAxisFlood
    ensures (o.GoalLocation in closed' ==> o.GoalLocation == o.StartLocation)
    ensures (o.StartLocation in rclosed' ==> o.StartLocation == o.GoalLocation)
  {
    var start, goal := o.StartLocation, o.GoalLocation;
    ghost var fedge := EdgeTowards(o, adjacent, goal);
    ghost var redge := EdgeTowards(o, adjacent, start);
    closed', rclosed' := closed, rclosed;
    var nextIndex := GetIndexOfNodeWithLowestFCost(open, dist, start, goal);
    var next := open[nextIndex];
    var rnextIndex := GetIndexOfNodeWithLowestFCost(ropen, dist, goal, start);
    var rnext := ropen[rnextIndex];
    if next.Location in rclosed || rnext.Location in closed {
      var nodeList := PopMeetingList(next, closed, rnext, rclosed, start, goal);
      m := Meeting(true, next, rnext, closed, rclosed);
      return true, Ok(nodeList), open, closed, ropen, rclosed, m;
    }
    CloseBoth(open, closed, nextIndex, fedge, start, ropen, rclosed, rnextIndex, redge, goal);
    closed' := closed[next.Location := next];
    rclosed' := rclosed[rnext.Location := rnext];
    done, r, open', ropen', m := ExpandRound(o, so, adjacent, open[..nextIndex] + open[nextIndex + 1..], closed', next,
                                             ropen[..rnextIndex] + ropen[rnextIndex + 1..], rclosed', rnext);
  }

  /** `IterateUntilGoalBlockReached`: the node list the searches resolve with
      when they meet, or why they gave up; `fsearched` and `rsearched` are what
      the two directions closed. */
  method IterateUntilGoalBlockReached(a: BidirectionalAStar, dist: (Vector3, Vector3) -> real,
                                      adjacent: Vector3 -> seq<Vector3>)
    returns (r: Result<seq<Node>, SearchError>, ghost m: Meeting,
             ghost fsearched: set<Vector3>, ghost rsearched: set<Vector3>)
    ensures var o := a.Options;
      r.Ok? ==> && MeetingOk(m, EdgeTowards(o, adjacent, o.GoalLocation), EdgeTowards(o, adjacent, o.StartLocation),
                            o.StartLocation, o.GoalLocation)
                && NodeLocations(r.value) == NodeListOf(m, o.StartLocation, o.GoalLocation)
    ensures r.Err? ==> r.error != ConstructionFailed && GaveUp(r.error, fsearched, rsearched, a.Options, adjacent)
    ensures r == Err(UnreadableCell) ==> a.Options.AllowYAxisFlood
    ensures a.Options.MaximumNodesToConsider <= 0 ==> r == Err(NodeLimitExceeded)
  {
    var o := a.Options;
    var start, goal := o.StartLocation, o.GoalLocation;
    var so := SafetyOptionsFor(o);
    m := Meeting(false, Root(start), Root(goal), map[], map[]);
    var open := [Root(start)];
    var ropen := [Root(goal)];
    var closed: map<Vector3, Node> := map[];
    var rclosed: map<Vector3, Node> := map[];
    while |open| > 0 && |ropen| > 0
      invariant Searching(o, adjacent, open, closed, ropen, rclosed)
      decreases o.MaximumNodesToConsider - |closed|
    {
      if |closed| >= o.MaximumNodesToConsider || |rclosed| >= o.MaximumNodesToConsider {
        LimitReached(o, adjacent, open, closed, ropen, rclosed);
        return Err(NodeLimitExceeded), m, closed.Keys, rclosed.Keys;
      }
      var done, result;
      done, result, open, closed, ropen, rclosed, m := Round(o, so, adjacent, dist, open, closed, ropen, rclosed);
      if done {
        return result, m, closed.Keys, rclosed.Keys;
      }
    }
    NoPathLeft(o, adjacent, open, closed, ropen, rclosed);
    return Err(NoPathFound), m, closed.Keys, rclosed.Keys;
  }

  /** Closing the popped node of each direction keeps both frontiers, leaves
      only the two new closed locations' moves to process, and keeps the goal
      off the forward closed list and the start off the reverse one. */
  lemma CloseBoth(open: seq<Node>, closed: map<Vector3, Node>, k: nat, fedge: (Vector3, Vector3) -> bool, start: Vector3,
                  ropen: seq<Node>, rclosed: map<Vector3, Node>, rk: nat, redge: (Vector3, Vector3) -> bool, goal: Vector3)
    requires Frontier(open, closed, fedge, start) && Frontier(ropen, rclosed, redge, goal)
    requires Closure(open, closed, fedge) && Closure(ropen, rclosed, redge)
    requires k < |open| && rk < |ropen|
    ensures var next, rnext := open[k], ropen[rk];
      && Frontier(open[..k] + open[k + 1..], closed[next.Location := next], fedge, start)
      && Frontier(ropen[..rk] + ropen[rk + 1..], rclosed[rnext.Location := rnext], redge, goal)
      && ClosureExcept(open[..k] + open[k + 1..], closed[next.Location := next], fedge, next.Location)
      && ClosureExcept(ropen[..rk] + ropen[rk + 1..], rclosed[rnext.Location := rnext], redge, rnext.Location)
  {
    CloseKeepsFrontier(open, closed, k, fedge, start);
    CloseKeepsFrontier(ropen, rclosed, rk, redge, goal);
    CloseKeepsClosure(open, closed, k, fedge);
    CloseKeepsClosure(ropen, rclosed, rk, redge);
  }

  /** At the node limit both directions have closed that many locations, each
      reached from its root. */
  lemma LimitReached(o: AStarOptions, adjacent: Vector3 -> seq<Vector3>,
                     open: seq<Node>, closed: map<Vector3, Node>, ropen: seq<Node>, rclosed: map<Vector3, Node>)
    requires Searching(o, adjacent, open, closed, ropen, rclosed)
    requires |closed| >= o.MaximumNodesToConsider || |rclosed| >= o.MaximumNodesToConsider
    ensures GaveUp(NodeLimitExceeded, closed.Keys, rclosed.Keys, o, adjacent)
  {
    ExploredReachable(closed, EdgeTowards(o, adjacent, o.GoalLocation), o.StartLocation);
    ExploredReachable(rclosed, EdgeTowards(o, adjacent, o.StartLocation), o.GoalLocation);
  }

  /** When one direction's open list ran dry, that direction closed exactly
      what its root reaches, which for distinct ends excludes the other end. */
  lemma NoPathLeft(o: AStarOptions, adjacent: Vector3 -> seq<Vector3>,
                   open: seq<Node>, closed: map<Vector3, Node>, ropen: seq<Node>, rclosed: map<Vector3, Node>)
    requires Searching(o, adjacent, open, closed, ropen, rclosed)
    requires open == [] || ropen == []
    ensures GaveUp(NoPathFound, closed.Keys, rclosed.Keys, o, adjacent)
  {
    var start, goal := o.StartLocation, o.GoalLocation;
    if open == [] {
      ExhaustedReach(closed, EdgeTowards(o, adjacent, goal), start);
    } else {
      ExhaustedReach(rclosed, EdgeTowards(o, adjacent, start), goal);
    }
  }

  /** Pushing a walk to the goal onto a forward path from the start: the path
      stays in front, the list ends at the goal, and the path's last location
      is not pushed again. */
  lemma JoinedListShape(f: seq<Vector3>, b: seq<Vector3>, start: Vector3, goal: Vector3)
    requires |f| >= 2 && NoDup(f) && f[0] == start
    requires NoDup(b) && b != [] && b[|b| - 1] == goal
    requires forall i :: 1 <= i < |f| ==> f[i] != goal
    ensures var p := PushWalk(f, b);
      && |p| >= |f| && p[..|f|] == f
      && p[0] == start && p[|p| - 1] == goal
      && Count(p, f[|f| - 1]) == 1
      && (forall i :: |f| <= i < |p| ==> p[i] in b)
  {
    var p := PushWalk(f, b);
    var loc := f[|f| - 1];
    PushWalkExtends(f, b);
    PushWalkFrom(f, b);
    PushWalkLast(f, b);
    assert p[0] == p[..|f|][0];
    assert p == f + p[|f|..];
    assert f[|f| - 1] != f[0];
    assert forall i :: |f| <= i < |p| ==> p[i] != loc;
    assert loc !in p[|f|..];
    CountAppend(f, p[|f|..], loc);
    NoDupCount(f, loc);
  }

  /** Pushing a walk to the goal onto `[popped, start]`: the two stay in front,
      and the list ends at the goal unless the goal is the start. */
  lemma PopListShape(popped: Vector3, b: seq<Vector3>, start: Vector3, goal: Vector3)
    requires NoDup(b) && b != [] && b[|b| - 1] == goal
    ensures var p := Reverse(PushWalk([popped, start], b));
      && |p| >= 2 && p[|p| - 1] == popped && p[|p| - 2] == start
      && (start != goal ==> p[0] == goal)
      && (forall i :: 0 <= i < |p| - 2 ==> p[i] in b)
  {
    var l := [popped, start];
    var x := PushWalk(l, b);
    PushWalkExtends(l, b);
    PushWalkFrom(l, b);
    assert x[0] == x[..2][0] && x[1] == x[..2][1];
    if start != goal {
      PushWalkLast(l, b);
    }
    var p := Reverse(x);
    forall i | 0 <= i < |p| - 2 ensures p[i] in b {
      var j := |x| - 1 - i;
      assert 2 <= j < |x| && p[i] == x[j];
    }
  }

  /** An expansion-time meeting yields, after `Pathfind`'s final reversal, the
      forward path from the start to the meeting location followed by those
      locations of the reverse walk not already on it: a list from the start to
      the goal that holds the meeting location exactly once. */
  lemma JoinedPathShape(m: Meeting, fedge: (Vector3, Vector3) -> bool, redge: (Vector3, Vector3) -> bool,
                        start: Vector3, goal: Vector3)
    requires MeetingOk(m, fedge, redge, start, goal) && !m.AtPop
    ensures var f := Reverse(Chain(m.Forward, m.FClosed, start));
      var p := Reverse(NodeListOf(m, start, goal));
      && 2 <= |f| <= |p|
      && p[..|f|] == f && IsPath(f, fedge) && NoDup(f)
      && p[0] == start && p[|p| - 1] == goal
      && p[|f| - 1] == m.Forward.Location && Count(p, m.Forward.Location) == 1
      && (forall i :: |f| <= i < |p| ==> p[i] in Chain(m.Backward, m.RClosed, goal))
  {
    var c := Chain(m.Forward, m.FClosed, start);
    var f := Reverse(c);
    var b := Chain(m.Backward, m.RClosed, goal);
    var x := PushWalk(f, b);
    ReverseReverse(x);
    assert Reverse(NodeListOf(m, start, goal)) == x;
    ChainPath(m.Forward, m.FClosed, fedge, start);
    FreshChain(m.Backward, m.RClosed, goal);
    assert f[|f| - 1] == m.Forward.Location;
    GoalOffForwardPath(m, start, goal);
    JoinedListShape(f, b, start, goal);
  }

  /** The goal is not on the forward path of an expansion-time meeting, except
      as the start. */
  lemma GoalOffForwardPath(m: Meeting, start: Vector3, goal: Vector3)
    requires ClosedOk(m.FClosed, start) && LinkOk(m.Forward, m.FClosed, start)
    requires m.Forward.Location !in m.FClosed && m.Forward.Location != goal
    requires goal in m.FClosed ==> goal == start
    ensures var f := Reverse(Chain(m.Forward, m.FClosed, start));
      forall i :: 1 <= i < |f| ==> f[i] != goal
  {
    var c := Chain(m.Forward, m.FClosed, start);
    var f := Reverse(c);
    ChainShape(m.Forward, m.FClosed, start);
    ChainNoDup(m.Forward, m.FClosed, start);
    ReverseNoDup(c);
    assert f[0] == c[|c| - 1] == start;
    forall i | 1 <= i < |f| ensures f[i] != goal {
      var k := |c| - 1 - i;
      assert f[i] == c[k];
    }
  }

  /** A pop-time meeting yields, after `Pathfind`'s final reversal, the
      reverse walk's new locations followed by the start and the popped forward
      location: the list ends `[start, popped]`, and it begins at the goal
      unless the goal is the start. */
  lemma PopPathShape(m: Meeting, start: Vector3, goal: Vector3)
    requires ClosedOk(m.FClosed, start) && LinkOk(m.Forward, m.FClosed, start)
    requires ClosedOk(m.RClosed, goal) && LinkOk(m.Backward, m.RClosed, goal) && m.Backward.Location !in m.RClosed
    requires m.AtPop
    ensures var p := Reverse(NodeListOf(m, start, goal));
      && |p| >= 2
      && p[|p| - 1] == m.Forward.Location && p[|p| - 2] == start
      && (start != goal ==> p[0] == goal)
      && (forall i :: 0 <= i < |p| - 2 ==> p[i] in Chain(m.Backward, m.RClosed, goal))
  {
    PopNodeList(m, start, goal);
    FreshChain(m.Backward, m.RClosed, goal);
    PopListShape(m.Forward.Location, Chain(m.Backward, m.RClosed, goal), start, goal);
  }

  /** A pop-time meeting resolves with the reverse walk pushed onto the popped
      forward location and the start. */
  lemma PopNodeList(m: Meeting, start: Vector3, goal: Vector3)
    requires ClosedOk(m.FClosed, start) && LinkOk(m.Forward, m.FClosed, start)
    requires ClosedOk(m.RClosed, goal) && LinkOk(m.Backward, m.RClosed, goal)
    requires m.AtPop
    ensures NodeListOf(m, start, goal) == PushWalk([m.Forward.Location, start], Chain(m.Backward, m.RClosed, goal))
  {
    var c := Chain(m.Forward, m.FClosed, start);
    ChainEnds(m.Forward, m.FClosed, start);
    assert [c[0], c[|c| - 1]] == [m.Forward.Location, start];
  }

  /** `Pathfind`: the blocks of the resolved node list, reversed. An
      expansion-time meeting gives a list from the start to the goal; a
      pop-time meeting one that ends with the start and the popped location.
      Otherwise, why the searches gave up. */
  method Pathfind(a: BidirectionalAStar, dist: (Vector3, Vector3) -> real, adjacent: Vector3 -> seq<Vector3>)
    returns (r: Result<seq<Vector3>, SearchError>, ghost m: Meeting,
             ghost fsearched: set<Vector3>, ghost rsearched: set<Vector3>)
    ensures var o := a.Options;
      r.Ok? ==> && MeetingOk(m, EdgeTowards(o, adjacent, o.GoalLocation), EdgeTowards(o, adjacent, o.StartLocation),
                            o.StartLocation, o.GoalLocation)
                && r.value == Reverse(NodeListOf(m, o.StartLocation, o.GoalLocation))
    ensures r.Ok? ==> |r.value| >= 2
    ensures r.Ok? && !m.AtPop ==>
      r.value[0] == a.Options.StartLocation && r.value[|r.value| - 1] == a.Options.GoalLocation
    ensures r.Ok? && m.AtPop ==>
      r.value[|r.value| - 2] == a.Options.StartLocation && r.value[|r.value| - 1] == m.Forward.Location &&
      (a.Options.StartLocation != a.Options.GoalLocation ==> r.value[0] == a.Options.GoalLocation)
    ensures r.Err? ==> r.error != ConstructionFailed && GaveUp(r.error, fsearched, rsearched, a.Options, adjacent)
    ensures r == Err(UnreadableCell) ==> a.Options.AllowYAxisFlood
    ensures a.Options.MaximumNodesToConsider <= 0 ==> r == Err(NodeLimitExceeded)
  {
    var o := a.Options;
    var found;
    found, m, fsearched, rsearched := IterateUntilGoalBlockReached(a, dist, adjacent);
    if found.Err? {
      return Err(found.error), m, fsearched, rsearched;
    }
    ghost var fedge, redge := EdgeTowards(o, adjacent, o.GoalLocation), EdgeTowards(o, adjacent, o.StartLocation);
    if m.AtPop {
      PopPathShape(m, o.StartLocation, o.GoalLocation);
    } else {
      JoinedPathShape(m, fedge, redge, o.StartLocation, o.GoalLocation);
    }
    return Ok(Reverse(NodeLocations(found.value))), m, fsearched, rsearched;
  }
}
