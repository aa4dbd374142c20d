/** What both A* searches share: the node record (`IAStarNode`), the F cost used
    to order the open list, the two list scans, and the parent chain that a
    search walks to produce its path. */
module SearchNodes {
  import opened Wrappers
  import opened Lists
  import opened VectorUtils
  import opened SafetyOptions
  import opened PathfinderOptions

  /** An `IAStarNode`. `ParentNode` is referenced by its location: a parent is
      always a closed node, and the closed list holds at most one node per
      location and never changes a node once it is closed. `FCost` and `HCost`
      are functions of the location and are recomputed where they are read. */
  datatype Node = Node(Location: Vector3, Parent: Option<Vector3>, GCost: nat)

  /** The node a search starts from. Its G cost is the distance of the start from
      itself, which is zero. */
  function Root(loc: Vector3): Node {
    Node(loc, None, 0)
  }

  /** Why a search gave up; each case is one of the source's `throw`s. */
  datatype SearchError =
    | ConstructionFailed  // start or goal block unreadable
    | NodeLimitExceeded   // MaximumNodesToConsider reached
    | NoPathFound         // the open list ran dry
    | UnreadableCell      // an unreadable block was put on the candidate list and then dereferenced

  /** `CalculateFCost`: the distance from the start plus the distance to the goal.
      `dist` is `Vector.distance`. */
  function CalculateFCost(dist: (Vector3, Vector3) -> real, from: Vector3, to: Vector3, loc: Vector3): real {
    dist(loc, from) + dist(loc, to)
  }

  /** Both searches build their safety options the same way: only the passable
      lists, the non-jumpable type ids and the vertical flag are copied over. */
  function SafetyOptionsFor(o: AStarOptions): (so: BlockSafetyCheckerOptions)
    ensures so.EntityHeight == 2 && so.TagIdsThatCannotBeJumpedOver == []
    ensures so.TypeIdsToConsiderPassable == o.TypeIdsToConsiderPassable
    ensures so.TagsToConsiderPassable == o.TagsToConsiderPassable
    ensures so.TypeIdsThatCannotBeJumpedOver == o.TypeIdsThatCannotBeJumpedOver
    ensures so.AllowYAxisFlood == o.AllowYAxisFlood
  {
    NewBlockSafetyCheckerOptions().(
      TagsToConsiderPassable := o.TagsToConsiderPassable,
      TypeIdsToConsiderPassable := o.TypeIdsToConsiderPassable,
      TypeIdsThatCannotBeJumpedOver := o.TypeIdsThatCannotBeJumpedOver,
      AllowYAxisFlood := o.AllowYAxisFlood)
  }

  /** The locations of a list of nodes, in order. */
  function NodeLocations(list: seq<Node>): (ls: seq<Vector3>)
    ensures |ls| == |list|
    ensures forall i :: 0 <= i < |list| ==> ls[i] == list[i].Location
  {
    seq(|list|, i requires 0 <= i < |list| => list[i].Location)
  }

  /** The first index of the list holding `loc`, if any. */
  function FirstIndex(ls: seq<Vector3>, loc: Vector3): (r: Option<nat>)
    ensures r.None? <==> loc !in ls
    ensures r.Some? ==> r.value < |ls| && ls[r.value] == loc && loc !in ls[..r.value]
  {
    var k := IndexOf(ls, loc);
    if k == -1 then None else Some(k)
  }

  /** `GetIndexOfNodeIfInList`: the first index of `list` whose node is at the
      location of `node`, or `null`. */
  method GetIndexOfNodeIfInList(node: Node, list: seq<Node>) returns (r: Option<nat>)
    ensures r.None? ==> forall i :: 0 <= i < |list| ==> list[i].Location != node.Location
    ensures r.Some? ==> r.value < |list| && list[r.value].Location == node.Location
    ensures r.Some? ==> forall i :: 0 <= i < r.value ==> list[i].Location != node.Location
  {
    var i := 0;
    while i < |list|
      invariant 0 <= i <= |list|
      invariant forall j :: 0 <= j < i ==> list[j].Location != node.Location
    {
      if list[i].Location == node.Location {
        return Some(i);
      }
      i := i + 1;
    }
    return None;
  }

  /** The locations of a reversed list are the reversed locations. */
  lemma {:induction false} NodeLocationsReverse(list: seq<Node>)
    ensures NodeLocations(Reverse(list)) == Reverse(NodeLocations(list))
  {
    ReversedLocations(list, Reverse(list), NodeLocations(Reverse(list)), NodeLocations(list), Reverse(NodeLocations(list)));
  }

  /** The index facts behind `NodeLocationsReverse`, with the functions' bodies out of sight. */
  lemma ReversedLocations(list: seq<Node>, rl: seq<Node>, nr: seq<Vector3>, ls: seq<Vector3>, rs: seq<Vector3>)
    requires |rl| == |list| && forall i :: 0 <= i < |list| ==> rl[i] == list[|list| - 1 - i]
    requires |nr| == |rl| && forall i :: 0 <= i < |rl| ==> nr[i] == rl[i].Location
    requires |ls| == |list| && forall i :: 0 <= i < |list| ==> ls[i] == list[i].Location
    requires |rs| == |ls| && forall i :: 0 <= i < |ls| ==> rs[i] == ls[|ls| - 1 - i]
    ensures nr == rs
  {
    forall i | 0 <= i < |nr| ensures nr[i] == rs[i] {
      assert nr[i] == list[|list| - 1 - i].Location;
    }
  }

  /** The first index of a location among a node list's locations is the first
      node at that location. */
  lemma NodesFirstIndex(list: seq<Node>, loc: Vector3)
    ensures var f := FirstIndex(NodeLocations(list), loc);
      && (f.None? <==> forall i :: 0 <= i < |list| ==> list[i].Location != loc)
      && (f.Some? ==> f.value < |list| && list[f.value].Location == loc)
      && (f.Some? ==> forall i :: 0 <= i < f.value ==> list[i].Location != loc)
  {
    var ls := NodeLocations(list);
    var f := FirstIndex(ls, loc);
    if f.Some? {
      forall i | 0 <= i < f.value ensures list[i].Location != loc {
        assert ls[..f.value][i] == ls[i];
      }
    } else {
      forall i | 0 <= i < |list| ensures list[i].Location != loc {
        assert ls[i] in ls;
      }
    }
  }

  /** `GetIndexOfNodeWithLowestFCost`: the first node of least F cost, or -1 for
      an empty list. A later node replaces the current one only when it is
      strictly cheaper. */
  method GetIndexOfNodeWithLowestFCost(list: seq<Node>, dist: (Vector3, Vector3) -> real, from: Vector3, to: Vector3)
    returns (k: int)
    ensures list == [] <==> k == -1
    ensures list != [] ==> 0 <= k < |list|
    ensures list != [] ==> forall j :: 0 <= j < |list| ==>
      CalculateFCost(dist, from, to, list[k].Location) <= CalculateFCost(dist, from, to, list[j].Location)
    ensures list != [] ==> forall j :: 0 <= j < k ==>
      CalculateFCost(dist, from, to, list[k].Location) < CalculateFCost(dist, from, to, list[j].Location)
  {
    k := -1;
    var lowest: real := -1.0;
    var i := 0;
    while i < |list|
      invariant 0 <= i <= |list|
      invariant i == 0 <==> k == -1
      invariant i > 0 ==> 0 <= k < i && lowest == CalculateFCost(dist, from, to, list[k].Location)
      invariant forall j :: 0 <= j < i ==> lowest <= CalculateFCost(dist, from, to, list[j].Location)
      invariant forall j :: 0 <= j < k ==> lowest < CalculateFCost(dist, from, to, list[j].Location)
    {
      var cost := CalculateFCost(dist, from, to, list[i].Location);
      if k == -1 {
        lowest, k := cost, i;
      } else if cost < lowest {
        lowest, k := cost, i;
      }
      i := i + 1;
    }
  }

  /** The key is symmetric: the reverse search, which swaps start and goal,
      orders its open list by the same costs as the forward search. */
  lemma KeySymmetric(dist: (Vector3, Vector3) -> real, start: Vector3, goal: Vector3, loc: Vector3)
    ensures CalculateFCost(dist, start, goal, loc) == CalculateFCost(dist, goal, start, loc)
  {
  }

  /** A node's parent link is sound in `closed`: without a parent it is the root
      of the search at `root`; with one, the parent is closed and one step
      cheaper. */
  ghost predicate LinkOk(n: Node, closed: map<Vector3, Node>, root: Vector3) {
    match n.Parent
    case None => n == Root(root)
    case Some(p) => p in closed && closed[p].GCost + 1 == n.GCost
  }

  /** The closed list of a search from `root`: every node is filed under its own
      location and links soundly. */
  ghost predicate ClosedOk(closed: map<Vector3, Node>, root: Vector3) {
    forall l :: l in closed ==> closed[l].Location == l && LinkOk(closed[l], closed, root)
  }

  /** The locations met walking from `n` along `ParentNode` until `null`. */
  ghost function Chain(n: Node, closed: map<Vector3, Node>, root: Vector3): (c: seq<Vector3>)
    requires ClosedOk(closed, root) && LinkOk(n, closed, root)
    ensures c != [] && c[0] == n.Location
    decreases n.GCost
  {
    match n.Parent
    case None => [n.Location]
    case Some(p) => [n.Location] + Chain(closed[p], closed, root)
  }

  /** The walk from a node has one location per unit of G cost, from the node's
      own location to the root. */
  lemma {:induction false} ChainEnds(n: Node, closed: map<Vector3, Node>, root: Vector3)
    requires ClosedOk(closed, root) && LinkOk(n, closed, root)
    ensures var c := Chain(n, closed, root);
      |c| == n.GCost + 1 && c[0] == n.Location && c[|c| - 1] == root
    decreases n.GCost
  {
    match n.Parent
    case None =>
    case Some(p) =>
      ChainEnds(closed[p], closed, root);
  }

  /** The walk from a node: one location per unit of G cost, from the node's
      own location to the root; every later location is closed, and each one is
      the parent of the one before it. */
  lemma {:induction false} ChainShape(n: Node, closed: map<Vector3, Node>, root: Vector3)
    requires ClosedOk(closed, root) && LinkOk(n, closed, root)
    ensures var c := Chain(n, closed, root);
      && |c| == n.GCost + 1
      && c[0] == n.Location
      && c[|c| - 1] == root
      && (|c| > 1 ==> n.Parent == Some(c[1]))
      && (forall i :: 1 <= i < |c| ==> c[i] in closed && closed[c[i]].GCost == n.GCost - i)
      && (forall i :: 1 <= i < |c| - 1 ==> closed[c[i]].Parent == Some(c[i + 1]))
    decreases n.GCost
  {
    match n.Parent
    case None =>
    case Some(p) =>
      var rest := Chain(closed[p], closed, root);
      ChainShape(closed[p], closed, root);
      var c := Chain(n, closed, root);
      assert c == [n.Location] + rest;
      forall i | 1 <= i < |c| ensures c[i] in closed && closed[c[i]].GCost == n.GCost - i {
        assert c[i] == rest[i - 1];
        if i > 1 {
          assert closed[rest[i - 1]].GCost == closed[p].GCost - (i - 1);
        }
      }
  }

  /** A walk visits every location at most once; it starts outside the closed
      list when the node it starts from is not closed. */
  lemma ChainNoDup(n: Node, closed: map<Vector3, Node>, root: Vector3)
    requires ClosedOk(closed, root) && LinkOk(n, closed, root)
    ensures NoDup(Chain(n, closed, root)[1..])
    ensures n.Location !in closed ==> NoDup(Chain(n, closed, root))
  {
    var c := Chain(n, closed, root);
    ChainShape(n, closed, root);
    forall i, j | 1 <= i < j < |c| ensures c[i] != c[j] {
      assert closed[c[i]].GCost != closed[c[j]].GCost;
    }
    forall i, j | 0 <= i < j < |c| - 1 ensures c[1..][i] != c[1..][j] {
      assert c[1..][i] == c[i + 1] && c[1..][j] == c[j + 1];
    }
  }

  /** The walk from a node that is not closed ends at the root and visits no
      location twice. */
  lemma FreshChain(n: Node, closed: map<Vector3, Node>, root: Vector3)
    requires ClosedOk(closed, root) && LinkOk(n, closed, root) && n.Location !in closed
    ensures var c := Chain(n, closed, root); c[|c| - 1] == root && NoDup(c)
  {
    ChainEnds(n, closed, root);
    ChainNoDup(n, closed, root);
  }

  /** A closed list keeps its meaning when a new location is closed with a node
      that links soundly. */
  lemma CloseKeepsClosedOk(closed: map<Vector3, Node>, root: Vector3, n: Node)
    requires ClosedOk(closed, root) && LinkOk(n, closed, root) && n.Location !in closed
    ensures ClosedOk(closed[n.Location := n], root)
    ensures forall m :: LinkOk(m, closed, root) ==> LinkOk(m, closed[n.Location := n], root)
  {
  }

  /** A node's parent, if any, reached it by a move of the search. */
  ghost predicate EdgeOk(n: Node, edge: (Vector3, Vector3) -> bool) {
    n.Parent.Some? ==> edge(n.Parent.value, n.Location)
  }

  /** What one direction of a search keeps between rounds: closed nodes are
      filed by location, link soundly, were reached by moves and cost less than
      the number of closed locations; open nodes do the same, at no more than
      that cost, at distinct locations none of which is closed. */
  ghost predicate Frontier(open: seq<Node>, closed: map<Vector3, Node>, edge: (Vector3, Vector3) -> bool, root: Vector3) {
    && ClosedOk(closed, root)
    && (forall l :: l in closed ==> EdgeOk(closed[l], edge) && closed[l].GCost < |closed|)
    && (forall i :: 0 <= i < |open| ==>
          LinkOk(open[i], closed, root) && EdgeOk(open[i], edge) &&
          open[i].Location !in closed && open[i].GCost <= |closed|)
    && (forall i, j :: 0 <= i < j < |open| ==> open[i].Location != open[j].Location)
  }

  /** Opening a new child of a closed node keeps the frontier. */
  lemma PushKeepsFrontier(open: seq<Node>, closed: map<Vector3, Node>, child: Node,
                          edge: (Vector3, Vector3) -> bool, root: Vector3)
    requires Frontier(open, closed, edge, root)
    requires LinkOk(child, closed, root) && EdgeOk(child, edge) && child.GCost <= |closed|
    requires child.Location !in closed && forall i :: 0 <= i < |open| ==> open[i].Location != child.Location
    ensures Frontier(open + [child], closed, edge, root)
  {
    var list := open + [child];
    forall i | 0 <= i < |list| ensures list[i] == (if i < |open| then open[i] else child) {
    }
  }

  /** Re-parenting an open node keeps the frontier. */
  lemma RelaxKeepsFrontier(open: seq<Node>, closed: map<Vector3, Node>, k: nat, child: Node,
                           edge: (Vector3, Vector3) -> bool, root: Vector3)
    requires Frontier(open, closed, edge, root)
    requires LinkOk(child, closed, root) && EdgeOk(child, edge) && child.GCost <= |closed|
    requires k < |open| && open[k].Location == child.Location
    ensures Frontier(open[k := open[k].(GCost := child.GCost, Parent := child.Parent)], closed, edge, root)
  {
  }

  /** Closing an open node keeps the frontier, one location more closed. */
  lemma CloseKeepsFrontier(open: seq<Node>, closed: map<Vector3, Node>, k: nat,
                           edge: (Vector3, Vector3) -> bool, root: Vector3)
    requires Frontier(open, closed, edge, root)
    requires k < |open|
    ensures var next := open[k];
      Frontier(open[..k] + open[k + 1..], closed[next.Location := next], edge, root)
  {
    var next := open[k];
    var rest := open[..k] + open[k + 1..];
    var closed' := closed[next.Location := next];
    CloseKeepsClosedOk(closed, root, next);
    assert |closed'| == |closed| + 1;
    assert forall l :: l in closed' ==> EdgeOk(closed'[l], edge) && closed'[l].GCost < |closed'| by {
      forall l | l in closed' ensures EdgeOk(closed'[l], edge) && closed'[l].GCost < |closed'| {
        if l != next.Location {
          assert closed'[l] == closed[l];
        }
      }
    }
    forall i | 0 <= i < |rest|
      ensures rest[i] == open[if i < k then i else i + 1]
    {
    }
    assert forall i :: 0 <= i < |rest| ==>
      LinkOk(rest[i], closed', root) && EdgeOk(rest[i], edge) && rest[i].Location !in closed' && rest[i].GCost <= |closed'| by {
      forall i | 0 <= i < |rest|
        ensures LinkOk(rest[i], closed', root) && EdgeOk(rest[i], edge)
        ensures rest[i].Location !in closed' && rest[i].GCost <= |closed'|
      {
        var j := if i < k then i else i + 1;
        assert rest[i] == open[j] && j != k;
      }
    }
    assert forall i, j :: 0 <= i < j < |rest| ==> rest[i].Location != rest[j].Location by {
      forall i, j | 0 <= i < j < |rest| ensures rest[i].Location != rest[j].Location {
        assert rest[i] == open[if i < k then i else i + 1];
        assert rest[j] == open[if j < k then j else j + 1];
      }
    }
  }

  /** Consecutive locations are joined by moves. */
  ghost predicate IsPath(p: seq<Vector3>, edge: (Vector3, Vector3) -> bool) {
    forall i :: 0 <= i < |p| - 1 ==> edge(p[i], p[i + 1])
  }

  /** A path by moves from one location to another. */
  ghost predicate Connects(p: seq<Vector3>, edge: (Vector3, Vector3) -> bool, from: Vector3, to: Vector3) {
    p != [] && p[0] == from && p[|p| - 1] == to && IsPath(p, edge)
  }

  /** Some path by moves leads from `from` to `to`. */
  ghost predicate Reachable(edge: (Vector3, Vector3) -> bool, from: Vector3, to: Vector3) {
    exists p :: Connects(p, edge, from, to)
  }

  /** A location is closed or on the open list. */
  ghost predicate Covered(b: Vector3, open: seq<Node>, closed: map<Vector3, Node>) {
    b in closed || exists i :: 0 <= i < |open| && open[i].Location == b
  }

  /** Every move out of a closed location other than `pending` leads to a
      location that is closed or open: `pending` is the location just closed,
      whose candidates are still being processed. */
  ghost predicate ClosureExcept(open: seq<Node>, closed: map<Vector3, Node>, edge: (Vector3, Vector3) -> bool,
                                pending: Vector3) {
    forall l, b :: l in closed && l != pending && edge(l, b) ==> Covered(b, open, closed)
  }

  /** Every move out of a closed location leads to a location that is closed
      or open. */
  ghost predicate Closure(open: seq<Node>, closed: map<Vector3, Node>, edge: (Vector3, Vector3) -> bool) {
    forall l, b :: l in closed && edge(l, b) ==> Covered(b, open, closed)
  }

  /** Closing an open node leaves every other closed location's moves covered;
      only the moves of the node just closed remain to be processed. */
  lemma CloseKeepsClosure(open: seq<Node>, closed: map<Vector3, Node>, k: nat, edge: (Vector3, Vector3) -> bool)
    requires Closure(open, closed, edge) && k < |open|
    ensures var next := open[k];
      ClosureExcept(open[..k] + open[k + 1..], closed[next.Location := next], edge, next.Location)
  {
    var next := open[k];
    var rest := open[..k] + open[k + 1..];
    var closed' := closed[next.Location := next];
    forall l, b | l in closed' && l != next.Location && edge(l, b) ensures Covered(b, rest, closed') {
      if b !in closed' {
        var i :| 0 <= i < |open| && open[i].Location == b;
        assert i != k;
        var j := if i < k then i else i - 1;
        assert rest[j] == open[i];
      }
    }
  }

  /** A list that keeps the locations of another, in place, and may add more
      covers at least what the other covers. */
  lemma CoverGrows(list: seq<Node>, list': seq<Node>, closed: map<Vector3, Node>,
                   edge: (Vector3, Vector3) -> bool, pending: Vector3)
    requires |list| <= |list'| && forall i :: 0 <= i < |list| ==> list'[i].Location == list[i].Location
    ensures forall b :: Covered(b, list, closed) ==> Covered(b, list', closed)
    ensures ClosureExcept(list, closed, edge, pending) ==> ClosureExcept(list', closed, edge, pending)
  {
    forall b | Covered(b, list, closed) ensures Covered(b, list', closed) {
      if b !in closed {
        var i :| 0 <= i < |list| && list[i].Location == b;
        assert list'[i].Location == b;
      }
    }
  }

  /** A path that starts at a closed location, in a closed list whose moves
      lead only to closed locations, never leaves the closed list. */
  lemma {:induction false} PathStaysClosed(p: seq<Vector3>, closed: map<Vector3, Node>,
                                           edge: (Vector3, Vector3) -> bool, n: nat)
    requires Closure([], closed, edge) && IsPath(p, edge) && p != [] && p[0] in closed && n < |p|
    ensures p[n] in closed
    decreases n
  {
    if n > 0 {
      PathStaysClosed(p, closed, edge, n - 1);
      assert edge(p[n - 1], p[n]);
      assert Covered(p[n], [], closed);
    }
  }

  /** Every closed location of a search was reached from its root by moves. */
  lemma ExploredReachable(closed: map<Vector3, Node>, edge: (Vector3, Vector3) -> bool, root: Vector3)
    requires ClosedOk(closed, root) && forall l :: l in closed ==> EdgeOk(closed[l], edge)
    ensures forall l :: l in closed ==> Reachable(edge, root, l)
  {
    forall l | l in closed ensures Reachable(edge, root, l) {
      ChainPath(closed[l], closed, edge, root);
      assert Connects(Reverse(Chain(closed[l], closed, root)), edge, root, l);
    }
  }

  /** A search whose open list ran dry has closed exactly the locations
      reachable from its root. */
  lemma ExhaustedReach(closed: map<Vector3, Node>, edge: (Vector3, Vector3) -> bool, root: Vector3)
    requires ClosedOk(closed, root) && forall l :: l in closed ==> EdgeOk(closed[l], edge)
    requires Closure([], closed, edge) && root in closed
    ensures forall l :: Reachable(edge, root, l) <==> l in closed
  {
    ExploredReachable(closed, edge, root);
    forall l | Reachable(edge, root, l) ensures l in closed {
      var p :| Connects(p, edge, root, l);
      PathStaysClosed(p, closed, edge, |p| - 1);
    }
  }

  /** Walking from a node reached by moves, each location was reached from the
      next one by a move. */
  lemma ChainEdges(n: Node, closed: map<Vector3, Node>, edge: (Vector3, Vector3) -> bool, root: Vector3)
    requires ClosedOk(closed, root) && LinkOk(n, closed, root) && EdgeOk(n, edge)
    requires forall l :: l in closed ==> EdgeOk(closed[l], edge)
    ensures var c := Chain(n, closed, root);
      forall j :: 0 <= j < |c| - 1 ==> edge(c[j + 1], c[j])
  {
    var c := Chain(n, closed, root);
    ChainShape(n, closed, root);
    forall j | 0 <= j < |c| - 1 ensures edge(c[j + 1], c[j]) {
      if j == 0 {
        assert n.Parent == Some(c[1]);
      } else {
        assert closed[c[j]].Parent == Some(c[j + 1]);
        assert closed[c[j]].Location == c[j];
      }
    }
  }

  /** The reversed walk from a node reached by moves is a path from the root to
      the node, one location longer than the node's G cost, without repeated
      locations when the node itself is not closed. */
  lemma ChainPath(n: Node, closed: map<Vector3, Node>, edge: (Vector3, Vector3) -> bool, root: Vector3)
    requires ClosedOk(closed, root) && LinkOk(n, closed, root) && EdgeOk(n, edge)
    requires forall l :: l in closed ==> EdgeOk(closed[l], edge)
    ensures var p := Reverse(Chain(n, closed, root));
      && |p| == n.GCost + 1
      && p[0] == root && p[|p| - 1] == n.Location
      && IsPath(p, edge)
      && (n.Location !in closed ==> NoDup(p))
  {
    var c := Chain(n, closed, root);
    var p := Reverse(c);
    ChainEnds(n, closed, root);
    ChainNoDup(n, closed, root);
    if n.Location !in closed {
      ReverseNoDup(c);
    }
    ChainEdges(n, closed, edge, root);
    forall i | 0 <= i < |p| - 1 ensures edge(p[i], p[i + 1]) {
      var j := |c| - 2 - i;
      assert 0 <= j < |c| - 1;
      assert p[i] == c[j + 1];
      assert p[i + 1] == c[j];
      assert edge(c[j + 1], c[j]);
    }
  }

  /** JavaScript truthiness of `GetIndexOfNodeIfInList`'s result: `null` and
      index 0 are both falsy. */
  predicate Truthy(r: Option<nat>) {
    r.Some? && r.value != 0
  }

  /** The bidirectional search's path building: each walked location is
      appended unless it already occurs in the list at an index other than 0. */
  function PushWalk(list: seq<Vector3>, walk: seq<Vector3>): seq<Vector3>
    decreases |walk|
  {
    if walk == [] then list
    else
      var next := if Truthy(FirstIndex(list, walk[0])) then list else list + [walk[0]];
      PushWalk(next, walk[1..])
  }

  /** Path building only appends, and keeps its first element. */
  lemma {:induction false} PushWalkExtends(list: seq<Vector3>, walk: seq<Vector3>)
    ensures |PushWalk(list, walk)| >= |list| && PushWalk(list, walk)[..|list|] == list
    decreases |walk|
  {
    if walk != [] {
      var next := if Truthy(FirstIndex(list, walk[0])) then list else list + [walk[0]];
      PushWalkExtends(next, walk[1..]);
      assert next[..|list|] == list;
    }
  }

  /** Walking locations none of which is in the list yet, and none twice,
      appends all of them. */
  lemma {:induction false} PushWalkFresh(list: seq<Vector3>, walk: seq<Vector3>)
    requires NoDup(walk) && forall i :: 0 <= i < |walk| ==> walk[i] !in list
    ensures PushWalk(list, walk) == list + walk
    decreases |walk|
  {
    if walk != [] {
      var rest := walk[1..];
      assert FirstIndex(list, walk[0]).None?;
      forall i | 0 <= i < |rest| ensures rest[i] !in list + [walk[0]] {
        assert rest[i] == walk[i + 1] && walk[i + 1] != walk[0];
      }
      PushWalkFresh(list + [walk[0]], rest);
      assert list + [walk[0]] + rest == list + walk;
    }
  }

  /** The last walked location ends the list when it occurs in the walk once
      and nowhere in the list after its first element. */
  lemma {:induction false} PushWalkLast(list: seq<Vector3>, walk: seq<Vector3>)
    requires NoDup(walk) && walk != []
    requires forall i :: 1 <= i < |list| ==> list[i] != walk[|walk| - 1]
    ensures var r := PushWalk(list, walk); r != [] && r[|r| - 1] == walk[|walk| - 1]
    decreases |walk|
  {
    var x := walk[|walk| - 1];
    var f := FirstIndex(list, walk[0]);
    var next := if Truthy(f) then list else list + [walk[0]];
    if |walk| == 1 {
      assert !Truthy(f);
    } else {
      var rest := walk[1..];
      assert rest[|rest| - 1] == x && walk[0] != x;
      assert NoDup(rest) by {
        forall i, j | 0 <= i < j < |rest| ensures rest[i] != rest[j] {
          assert rest[i] == walk[i + 1] && rest[j] == walk[j + 1];
        }
      }
      forall i | 1 <= i < |next| ensures next[i] != x {
        if i < |list| { assert next[i] == list[i]; }
      }
      PushWalkLast(next, rest);
    }
  }

  /** Everything appended comes from the walk, and is in the list after its
      first element only when it is that first element. */
  lemma {:induction false} PushWalkFrom(list: seq<Vector3>, walk: seq<Vector3>)
    ensures var r := PushWalk(list, walk);
      && (forall i :: |list| <= i < |r| ==> r[i] in walk)
      && (forall i, j :: |list| <= i < |r| && 1 <= j < |list| && r[i] == list[j] ==> r[i] == list[0])
    decreases |walk|
  {
    if walk != [] {
      var f := FirstIndex(list, walk[0]);
      var next := if Truthy(f) then list else list + [walk[0]];
      var r := PushWalk(list, walk);
      assert r == PushWalk(next, walk[1..]);
      PushWalkFrom(next, walk[1..]);
      PushWalkExtends(next, walk[1..]);
      forall i | |list| <= i < |r| ensures r[i] in walk {
        if i < |next| {
          assert r[i] == next[..|next|][i] == walk[0];
        } else {
          assert r[i] in walk[1..];
        }
      }
      forall i, j | |list| <= i < |r| && 1 <= j < |list| && r[i] == list[j] ensures r[i] == list[0] {
        assert next[j] == list[j] && next[0] == list[0];
        if i < |next| {
          assert r[i] == next[..|next|][i] == walk[0];
          assert !Truthy(f);
        }
      }
    }
  }

  /** The open list after one candidate location of an expansion of `parent`:
      a missing or closed candidate changes nothing; one not yet open is
      appended as a child of `parent`; an open one is re-parented, at the first
      node at its location, when the child is strictly cheaper. */
  function RelaxStep(list: seq<Node>, closed: map<Vector3, Node>, parent: Node, c: Option<Vector3>): seq<Node> {
    if c.None? || c.value in closed then list
    else match FirstIndex(NodeLocations(list), c.value)
      case None => list + [Node(c.value, Some(parent.Location), parent.GCost + 1)]
      case Some(k) =>
        if list[k].GCost > parent.GCost + 1 then list[k := list[k].(GCost := parent.GCost + 1, Parent := Some(parent.Location))]
        else list
  }

  /** The open list after the candidates of an expansion, taken in order. */
  function RelaxAll(list: seq<Node>, closed: map<Vector3, Node>, parent: Node, cs: seq<Option<Vector3>>): seq<Node>
    decreases |cs|
  {
    if cs == [] then list
    else RelaxStep(RelaxAll(list, closed, parent, cs[..|cs| - 1]), closed, parent, cs[|cs| - 1])
  }

  /** The locations an expansion opens: the present candidates that are neither
      closed nor `known`, each at its first appearance among the candidates. */
  function Fresh(known: seq<Vector3>, closed: map<Vector3, Node>, cs: seq<Option<Vector3>>): seq<Vector3>
    decreases |cs|
  {
    if cs == [] then []
    else
      var init, c := cs[..|cs| - 1], cs[|cs| - 1];
      Fresh(known, closed, init) + (if c.Some? && c.value !in closed && c.value !in known && c !in init then [c.value] else [])
  }

  /** The fresh locations are exactly the present candidates outside `closed`
      and `known`, without repetition. */
  lemma {:induction false} FreshMeaning(known: seq<Vector3>, closed: map<Vector3, Node>, cs: seq<Option<Vector3>>)
    ensures var f := Fresh(known, closed, cs);
      && NoDup(f)
      && forall x :: x in f <==> Some(x) in cs && x !in closed && x !in known
    decreases |cs|
  {
    if cs != [] {
      var init, c := cs[..|cs| - 1], cs[|cs| - 1];
      FreshMeaning(known, closed, init);
      var f0 := Fresh(known, closed, init);
      assert cs == init + [c];
      forall x ensures x in Fresh(known, closed, cs) <==> Some(x) in cs && x !in closed && x !in known {
        assert Some(x) in cs <==> Some(x) in init || Some(x) == c;
      }
      if c.Some? && c.value !in closed && c.value !in known && c !in init {
        NoDupAppend(f0, [c.value]);
      }
    }
  }

  /** What an expansion made of `r` from `list`: every open node keeps its
      location, and takes the child's G cost and parent when it is a candidate
      and was strictly dearer; the fresh locations follow, in order, as
      children of `parent`. */
  ghost predicate RelaxedFrom(r: seq<Node>, list: seq<Node>, parent: Node, cs: seq<Option<Vector3>>, added: seq<Vector3>) {
    var g, p := parent.GCost + 1, Some(parent.Location);
    && |r| == |list| + |added|
    && (forall i :: 0 <= i < |list| ==>
          r[i] == if Some(list[i].Location) in cs && list[i].GCost > g then list[i].(GCost := g, Parent := p) else list[i])
    && (forall j :: 0 <= j < |added| ==> r[|list| + j] == Node(added[j], p, g))
  }

  /** The first index of a location in a list without repetition is its index. */
  lemma {:induction false} FirstIndexDistinct(ls: seq<Vector3>, k: nat, x: Vector3)
    requires NoDup(ls) && k < |ls| && ls[k] == x
    ensures FirstIndex(ls, x) == Some(k)
  {
  }

  /** The part of an expansion's processing loop both searches share, for a
      candidate `c` that is neither the goal nor a meeting point: a closed one
      is skipped, a new one is opened as a child of `next`, and an open one is
      re-parented to `next` when the child is strictly cheaper. */
  method RelaxCandidate(list: seq<Node>, closed: map<Vector3, Node>, next: Node, c: Vector3,
                        ghost edge: (Vector3, Vector3) -> bool, ghost root: Vector3)
    returns (list': seq<Node>)
    requires next.Location in closed && closed[next.Location] == next && edge(next.Location, c)
    requires Frontier(list, closed, edge, root) && ClosureExcept(list, closed, edge, next.Location)
    ensures list' == RelaxStep(list, closed, next, Some(c))
    ensures Frontier(list', closed, edge, root) && ClosureExcept(list', closed, edge, next.Location)
    ensures Covered(c, list', closed)
    ensures forall b :: Covered(b, list, closed) ==> Covered(b, list', closed)
  {
    var child := Node(c, Some(next.Location), next.GCost + 1);
    assert LinkOk(child, closed, root) && EdgeOk(child, edge) && child.GCost <= |closed|;
    list' := list;
    if c !in closed {
      var idx := GetIndexOfNodeIfInList(child, list);
      RelaxStepIndex(list, closed, next, c, idx);
      if idx.None? {
        PushKeepsFrontier(list, closed, child, edge, root);
        list' := list + [child];
        assert list'[|list'| - 1].Location == c;
      } else if list[idx.value].GCost > child.GCost {
        RelaxKeepsFrontier(list, closed, idx.value, child, edge, root);
        list' := list[idx.value := list[idx.value].(GCost := child.GCost, Parent := child.Parent)];
        assert list'[idx.value].Location == c;
      } else {
        assert list'[idx.value].Location == c;
      }
    }
    CoverGrows(list, list', closed, edge, next.Location);
  }

  /** A frontier's open locations are distinct and none of them is closed. */
  lemma FrontierDistinct(open: seq<Node>, closed: map<Vector3, Node>, edge: (Vector3, Vector3) -> bool, root: Vector3)
    requires Frontier(open, closed, edge, root)
    ensures NoDup(NodeLocations(open))
    ensures forall i :: 0 <= i < |open| ==> open[i].Location !in closed
  {
    var ls := NodeLocations(open);
    forall i, j | 0 <= i < j < |ls| ensures ls[i] != ls[j] {
      assert open[i].Location != open[j].Location;
    }
  }

  /** One step of the processing loop of an expansion, as `RelaxStep` states it:
      `GetIndexOfNodeIfInList` finds the first node at the candidate's
      location. */
  lemma RelaxStepIndex(list: seq<Node>, closed: map<Vector3, Node>, parent: Node, c: Vector3, idx: Option<nat>)
    requires c !in closed
    requires idx.None? ==> forall i :: 0 <= i < |list| ==> list[i].Location != c
    requires idx.Some? ==> idx.value < |list| && list[idx.value].Location == c
    requires idx.Some? ==> forall i :: 0 <= i < idx.value ==> list[i].Location != c
    ensures var child := Node(c, Some(parent.Location), parent.GCost + 1);
      RelaxStep(list, closed, parent, Some(c)) ==
        if idx.None? then list + [child]
        else if list[idx.value].GCost > child.GCost then list[idx.value := list[idx.value].(GCost := child.GCost, Parent := child.Parent)]
        else list
  {
    NodesFirstIndex(list, c);
  }

  /** The relaxation over a list of distinct open locations, none closed:
      each open node is re-parented exactly when some candidate reaches it
      strictly cheaper, and the fresh candidates are appended once each, in
      order of appearance. */
  lemma {:induction false} RelaxAllMeaning(list: seq<Node>, closed: map<Vector3, Node>, parent: Node, cs: seq<Option<Vector3>>)
    requires NoDup(NodeLocations(list))
    requires forall i :: 0 <= i < |list| ==> list[i].Location !in closed
    ensures RelaxedFrom(RelaxAll(list, closed, parent, cs), list, parent, cs, Fresh(NodeLocations(list), closed, cs))
    decreases |cs|
  {
    if cs == [] {
    } else {
      var init := cs[..|cs| - 1];
      RelaxAllMeaning(list, closed, parent, init);
      assert cs == init + [cs[|cs| - 1]];
      RelaxStepMeaning(list, closed, parent, init, cs[|cs| - 1], RelaxAll(list, closed, parent, init));
    }
  }

  /** One candidate more keeps `RelaxedFrom`. */
  lemma {:induction false} RelaxStepMeaning(list: seq<Node>, closed: map<Vector3, Node>, parent: Node,
                                            init: seq<Option<Vector3>>, c: Option<Vector3>, r0: seq<Node>)
    requires NoDup(NodeLocations(list))
    requires forall i :: 0 <= i < |list| ==> list[i].Location !in closed
    requires RelaxedFrom(r0, list, parent, init, Fresh(NodeLocations(list), closed, init))
    ensures RelaxedFrom(RelaxStep(r0, closed, parent, c), list, parent, init + [c], Fresh(NodeLocations(list), closed, init + [c]))
  {
    var known := NodeLocations(list);
    var f0 := Fresh(known, closed, init);
    FreshSnoc(known, closed, init, c);
    FreshMeaning(known, closed, init);
    if c.None? || c.value in closed {
      assert forall i :: 0 <= i < |list| ==> Some(list[i].Location) != c;
      RelaxedUnchanged(r0, list, parent, init, c, f0);
    } else if c.value in known {
      RelaxOpen(list, closed, parent, init, c.value, r0, f0);
    } else if c.value in f0 {
      RelaxRepeated(list, closed, parent, init, c.value, r0, f0);
    } else {
      RelaxNew(list, closed, parent, init, c.value, r0, f0);
    }
  }

  /** `RelaxAll` over one more candidate of `cs`. */
  lemma RelaxAllSnoc(list: seq<Node>, closed: map<Vector3, Node>, parent: Node, cs: seq<Option<Vector3>>, i: nat)
    requires i < |cs|
    ensures RelaxAll(list, closed, parent, cs[..i + 1]) == RelaxStep(RelaxAll(list, closed, parent, cs[..i]), closed, parent, cs[i])
  {
    assert cs[..i + 1][..i] == cs[..i];
  }

  /** Fresh locations with one candidate more. */
  lemma {:induction false} FreshSnoc(known: seq<Vector3>, closed: map<Vector3, Node>, init: seq<Option<Vector3>>, c: Option<Vector3>)
    ensures Fresh(known, closed, init + [c]) ==
      Fresh(known, closed, init) + (if c.Some? && c.value !in closed && c.value !in known && c !in init then [c.value] else [])
  {
    assert (init + [c])[..|init + [c]| - 1] == init;
  }

  /** A candidate at an open location of `list`. */
  lemma {:induction false} RelaxOpen(list: seq<Node>, closed: map<Vector3, Node>, parent: Node,
                                     init: seq<Option<Vector3>>, x: Vector3, r0: seq<Node>, added: seq<Vector3>)
    requires NoDup(NodeLocations(list)) && NoDup(added)
    requires forall y :: y in added ==> y !in NodeLocations(list)
    requires RelaxedFrom(r0, list, parent, init, added)
    requires x !in closed && x in NodeLocations(list)
    ensures RelaxedFrom(RelaxStep(r0, closed, parent, Some(x)), list, parent, init + [Some(x)], added)
  {
    var known := NodeLocations(list);
    var i :| 0 <= i < |known| && known[i] == x;
    RelaxedLocations(r0, list, parent, init, added);
    NoDupAppendDisjoint(known, added);
    FirstIndexDistinct(NodeLocations(r0), i, x);
    RelaxStepAt(r0, closed, parent, x, i);
    RelaxedAtOpen(r0, list, parent, init, i, added);
  }

  /** A candidate at a location an earlier candidate added. */
  lemma {:induction false} RelaxRepeated(list: seq<Node>, closed: map<Vector3, Node>, parent: Node,
                                         init: seq<Option<Vector3>>, x: Vector3, r0: seq<Node>, added: seq<Vector3>)
    requires NoDup(NodeLocations(list)) && NoDup(added)
    requires forall y :: y in added ==> y !in NodeLocations(list)
    requires RelaxedFrom(r0, list, parent, init, added)
    requires x !in closed && x in added
    ensures RelaxedFrom(RelaxStep(r0, closed, parent, Some(x)), list, parent, init + [Some(x)], added)
  {
    var j :| 0 <= j < |added| && added[j] == x;
    AddedUnchanged(list, closed, parent, init, r0, added, j);
    NotAmong(list, x);
    RelaxedUnchanged(r0, list, parent, init, Some(x), added);
  }

  /** An added node already has the child's G cost, so a repeated candidate
      leaves the list as it is. */
  lemma {:induction false} AddedUnchanged(list: seq<Node>, closed: map<Vector3, Node>, parent: Node,
                                          init: seq<Option<Vector3>>, r0: seq<Node>, added: seq<Vector3>, j: nat)
    requires NoDup(NodeLocations(list)) && NoDup(added)
    requires forall y :: y in added ==> y !in NodeLocations(list)
    requires RelaxedFrom(r0, list, parent, init, added)
    requires j < |added| && added[j] !in closed
    ensures RelaxStep(r0, closed, parent, Some(added[j])) == r0
  {
    RelaxedLocations(r0, list, parent, init, added);
    RelaxedAddedNode(r0, list, parent, init, added, j);
    StepAtAdded(r0, closed, parent, list, added, j);
  }

  /** `AddedUnchanged` on the locations alone. */
  lemma {:induction false} StepAtAdded(r0: seq<Node>, closed: map<Vector3, Node>, parent: Node,
                                       list: seq<Node>, added: seq<Vector3>, j: nat)
    requires NodeLocations(r0) == NodeLocations(list) + added
    requires NoDup(NodeLocations(list)) && NoDup(added)
    requires forall y :: y in added ==> y !in NodeLocations(list)
    requires j < |added| && added[j] !in closed
    requires r0[|list| + j] == Node(added[j], Some(parent.Location), parent.GCost + 1)
    ensures RelaxStep(r0, closed, parent, Some(added[j])) == r0
  {
    var known := NodeLocations(list);
    assert |known| == |list|;
    AddedAt(NodeLocations(r0), known, added, j);
    RelaxStepAt(r0, closed, parent, added[j], |known| + j);
  }

  /** A candidate at a location neither open nor added. */
  lemma {:induction false} RelaxNew(list: seq<Node>, closed: map<Vector3, Node>, parent: Node,
                                    init: seq<Option<Vector3>>, x: Vector3, r0: seq<Node>, added: seq<Vector3>)
    requires RelaxedFrom(r0, list, parent, init, added)
    requires x !in closed && x !in NodeLocations(list) && x !in added
    ensures RelaxedFrom(RelaxStep(r0, closed, parent, Some(x)), list, parent, init + [Some(x)], added + [x])
  {
    RelaxedLocations(r0, list, parent, init, added);
    assert x !in NodeLocations(r0);
    NotAmong(list, x);
    RelaxedAppend(r0, list, parent, init, added, x);
  }

  /** The node made for the `j`-th added location. */
  lemma {:induction false} RelaxedAddedNode(r: seq<Node>, list: seq<Node>, parent: Node, init: seq<Option<Vector3>>,
                                            added: seq<Vector3>, j: nat)
    requires RelaxedFrom(r, list, parent, init, added) && j < |added|
    ensures r[|list| + j] == Node(added[j], Some(parent.Location), parent.GCost + 1)
  {
  }

  /** An added location is first open where it was appended. */
  lemma {:induction false} AddedAt(ls: seq<Vector3>, known: seq<Vector3>, added: seq<Vector3>, j: nat)
    requires ls == known + added
    requires NoDup(known) && NoDup(added) && j < |added|
    requires forall x :: x in added ==> x !in known
    ensures FirstIndex(ls, added[j]) == Some(|known| + j)
  {
    NoDupAppendDisjoint(known, added);
    FirstIndexDistinct(ls, |known| + j, added[j]);
  }

  /** A location not among the locations of `list` is at none of its nodes. */
  lemma NotAmong(list: seq<Node>, x: Vector3)
    requires x !in NodeLocations(list)
    ensures forall i :: 0 <= i < |list| ==> Some(list[i].Location) != Some(x)
  {
    forall i | 0 <= i < |list| ensures list[i].Location != x {
      assert NodeLocations(list)[i] == list[i].Location;
    }
  }

  /** A candidate whose location is first open at index `k` of `list`. */
  lemma {:induction false} RelaxStepAt(list: seq<Node>, closed: map<Vector3, Node>, parent: Node, x: Vector3, k: nat)
    requires x !in closed
    requires FirstIndex(NodeLocations(list), x) == Some(k)
    ensures var g := parent.GCost + 1;
      && k < |list|
      && RelaxStep(list, closed, parent, Some(x)) ==
           if list[k].GCost > g then list[k := list[k].(GCost := g, Parent := Some(parent.Location))] else list
  {
  }

  /** What was made of `list` holds its locations, then the added ones. */
  lemma {:induction false} RelaxedLocations(r: seq<Node>, list: seq<Node>, parent: Node, init: seq<Option<Vector3>>,
                                            added: seq<Vector3>)
    requires RelaxedFrom(r, list, parent, init, added)
    ensures NodeLocations(r) == NodeLocations(list) + added
  {
    var ls, known := NodeLocations(r), NodeLocations(list);
    forall i | 0 <= i < |ls| ensures ls[i] == (known + added)[i] {
      if i >= |list| {
        assert r[|list| + (i - |list|)].Location == added[i - |list|];
      }
    }
  }

  /** A candidate at no location of `list` leaves what was made of it as it was. */
  lemma {:induction false} RelaxedUnchanged(r: seq<Node>, list: seq<Node>, parent: Node, init: seq<Option<Vector3>>, c: Option<Vector3>,
                         added: seq<Vector3>)
    requires RelaxedFrom(r, list, parent, init, added)
    requires forall i :: 0 <= i < |list| ==> Some(list[i].Location) != c
    ensures RelaxedFrom(r, list, parent, init + [c], added)
  {
    forall i | 0 <= i < |list| ensures Some(list[i].Location) in init + [c] <==> Some(list[i].Location) in init {
    }
  }

  /** A candidate at the location of `list[i]` re-parents that node exactly
      when the child is strictly cheaper than it now is. */
  lemma {:induction false} RelaxedAtOpen(r: seq<Node>, list: seq<Node>, parent: Node, init: seq<Option<Vector3>>, i: nat, added: seq<Vector3>)
    requires RelaxedFrom(r, list, parent, init, added)
    requires NoDup(NodeLocations(list)) && i < |list|
    ensures var g := parent.GCost + 1;
      RelaxedFrom(if r[i].GCost > g then r[i := r[i].(GCost := g, Parent := Some(parent.Location))] else r,
                  list, parent, init + [Some(list[i].Location)], added)
  {
    var c := Some(list[i].Location);
    var ls := NodeLocations(list);
    forall k | 0 <= k < |list| && k != i ensures Some(list[k].Location) in init + [c] <==> Some(list[k].Location) in init {
      assert ls[k] != ls[i];
    }
    assert c in init + [c];
  }

  /** A candidate at no location yet open is appended as a child of `parent`. */
  lemma {:induction false} RelaxedAppend(r: seq<Node>, list: seq<Node>, parent: Node, init: seq<Option<Vector3>>, added: seq<Vector3>, x: Vector3)
    requires RelaxedFrom(r, list, parent, init, added)
    requires forall i :: 0 <= i < |list| ==> list[i].Location != x
    ensures RelaxedFrom(r + [Node(x, Some(parent.Location), parent.GCost + 1)], list, parent, init + [Some(x)], added + [x])
  {
    RelaxedUnchanged(r, list, parent, init, Some(x), added);
  }
}
