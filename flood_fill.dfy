/** The breadth-first flood fill: a queue of accepted blocks and a closed list of
    location keys that only grows. A neighbour of a dequeued block is accepted as
    itself or, in the default water-like mode, as the block to fall to or to jump
    onto; every accepted location is closed first, so none is accepted twice. */
module FloodFill {
  import opened Wrappers
  import opened Lists
  import opened VectorUtils
  import opened World
  import opened SafetyOptions
  import opened SafetyResult
  import opened BlockSafetyChecker
  import opened FloodFillOptions
  import DataStructures

  /** The safety options the iterator builds: the defaults, with the passable lists
      and the cannot-jump-over type ids copied from the flood-fill options. */
  function FloodSafetyOptions(o: FloodFillIteratorOptions): (so: BlockSafetyCheckerOptions)
    ensures so.EntityHeight == 2 && so.TagIdsThatCannotBeJumpedOver == []
    ensures so.TypeIdsToConsiderPassable == o.TypeIdsToConsiderPassable
    ensures so.TagsToConsiderPassable == o.TagsToConsiderPassable
    ensures so.TypeIdsThatCannotBeJumpedOver == o.TypeIdsThatCannotBeJumpedOver
    ensures !so.AllowYAxisFlood
  {
    NewBlockSafetyCheckerOptions().(
      TagsToConsiderPassable := o.TagsToConsiderPassable,
      TypeIdsToConsiderPassable := o.TypeIdsToConsiderPassable,
      TypeIdsThatCannotBeJumpedOver := o.TypeIdsThatCannotBeJumpedOver)
  }

  /** `IsBlockIgnored`: a valid block with an ignored tag or an ignored type id. */
  predicate IsBlockIgnored(o: FloodFillIteratorOptions, block: Cell)
    ensures IsBlockIgnored(o, block) <==>
      block.IsValid &&
      ((exists t :: t in block.Tags && t in o.TagsToIgnore) || block.TypeId in o.TypeIdsToIgnore)
  {
    if !block.IsValid then false
    else if |o.TagsToIgnore| > 0 && SharesAny(block.Tags, o.TagsToIgnore) then true
    else IndexOf(o.TypeIdsToIgnore, block.TypeId) > -1
  }

  /** `IsBlockPassable`: the flood fill's own passability test, which agrees with
      the safety check's under the options the iterator hands it. */
  predicate IsBlockPassable(o: FloodFillIteratorOptions, block: Cell)
    ensures IsBlockPassable(o, block) <==> IsPassable(block, FloodSafetyOptions(o))
  {
    if !block.IsValid then false
    else if IndexOf(o.TypeIdsToConsiderPassable, block.TypeId) > -1 then true
    else |o.TagsToConsiderPassable| > 0 && SharesAny(o.TagsToConsiderPassable, block.Tags)
  }

  /** `IsBlockAlwaysIncluded`: a valid block whose type id or one of whose tags is
      on an always-include list. */
  predicate IsBlockAlwaysIncluded(o: FloodFillIteratorOptions, block: Cell)
    ensures IsBlockAlwaysIncluded(o, block) <==>
      block.IsValid &&
      (block.TypeId in o.TypeIdsToAlwaysIncludeInResult ||
       exists t :: t in o.TagsToAlwaysIncludeInResult && t in block.Tags)
  {
    if !block.IsValid then false
    else if IndexOf(o.TypeIdsToAlwaysIncludeInResult, block.TypeId) > -1 then true
    else |o.TagsToAlwaysIncludeInResult| > 0 && SharesAny(o.TagsToAlwaysIncludeInResult, block.Tags)
  }

  function SquaredDistance(a: Vector3, b: Vector3): nat {
    (a.x - b.x) * (a.x - b.x) + (a.y - b.y) * (a.y - b.y) + (a.z - b.z) * (a.z - b.z)
  }

  /** `IsLocationOutOfBounds`: the Euclidean distance from the start exceeds
      `MaxDistance`, decided exactly on the squared distance. */
  predicate IsLocationOutOfBounds(o: FloodFillIteratorOptions, location: Vector3) {
    o.MaxDistance < 0.0 || SquaredDistance(location, o.StartLocation) as real > o.MaxDistance * o.MaxDistance
  }

  /** The squared comparison is the distance comparison: for the non-negative
      square root `dist` of the squared distance, out of bounds means `dist > MaxDistance`. */
  lemma OutOfBoundsIsDistance(o: FloodFillIteratorOptions, location: Vector3, dist: real)
    requires dist >= 0.0 && dist * dist == SquaredDistance(location, o.StartLocation) as real
    ensures IsLocationOutOfBounds(o, location) <==> dist > o.MaxDistance
  {
    var m := o.MaxDistance;
    if m >= 0.0 {
      assert (dist - m) * (dist + m) == dist * dist - m * m;
      if dist > m {
        RealProductPositive(dist - m, dist + m);
      } else {
        RealProductNonNegative(m - dist, m + dist);
      }
    }
  }

  lemma RealProductPositive(a: real, b: real)
    requires a > 0.0 && b > 0.0
    ensures a * b > 0.0
  {
  }

  lemma RealProductNonNegative(a: real, b: real)
    requires a >= 0.0 && b >= 0.0
    ensures a * b >= 0.0
  {
  }

  /** The `GetAsString` keys of a set of locations. */
  ghost function Keys(locs: set<Vector3>): set<string> {
    set l | l in locs :: GetAsString(l)
  }

  /** Closing one more location adds exactly its key. */
  lemma KeysAdd(locs: set<Vector3>, added: Vector3)
    ensures Keys(locs + {added}) == Keys(locs) + {GetAsString(added)}
  {
  }

  /** A location's key is among the keys of a set exactly when the location is in
      it: `GetAsString` keys are distinct for distinct locations. */
  lemma KeyedIn(locs: set<Vector3>, l: Vector3)
    ensures GetAsString(l) in Keys(locs) <==> l in locs
  {
    if GetAsString(l) in Keys(locs) {
      var m :| m in locs && GetAsString(m) == GetAsString(l);
      GetAsStringInjective(m, l);
    }
  }

  /** `GetBlockIfPassable`: the block itself when it is valid, passable and not closed. */
  function GetBlockIfPassable(o: FloodFillIteratorOptions, closed: set<Vector3>, location: Vector3): (r: Option<Vector3>)
    requires location in o.Dimension
  {
    var block := o.Dimension[location];
    if block.IsValid && IsBlockPassable(o, block) && location !in closed then Some(location) else None
  }

  /** The safety check's results, by location. */
  type Oracle = map<Vector3, BlockSafetyCheckResult>

  /** The recorded result for a location; the default result for one not recorded. */
  function CheckAt(check: Oracle, l: Vector3): BlockSafetyCheckResult {
    if l in check then check[l] else NewBlockSafetyCheckResult()
  }

  /** `check` is `RunBlockSafetyCheck` under the iterator's safety options on
      every readable location. */
  ghost predicate IsSafetyCheck(o: FloodFillIteratorOptions, check: Oracle) {
    forall l {:trigger RunBlockSafetyCheck(o.Dimension, l, FloodSafetyOptions(o))} :: l in o.Dimension ==>
      CheckAt(check, l) == RunBlockSafetyCheck(o.Dimension, l, FloodSafetyOptions(o))
  }

  /** A move the check allows lands on a readable location. */
  ghost predicate CheckSound(o: FloodFillIteratorOptions, check: Oracle) {
    forall l :: l in o.Dimension ==>
      (CheckAt(check, l).CanSafelyFallFrom ==> Below(l, 1) in o.Dimension) &&
      (CheckAt(check, l).CanSafelyJumpOnto ==> Above(l, 1) in o.Dimension)
  }

  /** `RunBlockSafetyCheck` under the iterator's options on every readable
      location; it is a sound check. */
  ghost function SafetyCheckOf(o: FloodFillIteratorOptions): (check: Oracle)
    ensures IsSafetyCheck(o, check) && CheckSound(o, check)
  {
    var check := map l | l in o.Dimension :: RunBlockSafetyCheck(o.Dimension, l, FloodSafetyOptions(o));
    SafetyCheckSound(o, check);
    check
  }

  lemma SafetyCheckSound(o: FloodFillIteratorOptions, check: Oracle)
    requires IsSafetyCheck(o, check)
    ensures CheckSound(o, check)
  {
    forall l | l in o.Dimension
      ensures (CheckAt(check, l).CanSafelyFallFrom ==> Below(l, 1) in o.Dimension) &&
              (CheckAt(check, l).CanSafelyJumpOnto ==> Above(l, 1) in o.Dimension)
    {
      var r := RunBlockSafetyCheck(o.Dimension, l, FloodSafetyOptions(o));
      assert CheckAt(check, l) == r;
    }
  }

  /** The water-like choice for a block that is not always included: nothing when
      the safety check finds it unsafe; the block below when one can fall from it,
      the block above when one can jump onto it, each only while unclosed; else itself. */
  function WaterLikeChoice(o: FloodFillIteratorOptions, check: Oracle, closed: set<Vector3>, location: Vector3): (r: Option<Vector3>)
    requires location in o.Dimension
  {
    var result := CheckAt(check, location);
    if !result.IsSafe then None
    else if result.CanSafelyFallFrom then
      (if Below(location, 1) in closed then None else Some(Below(location, 1)))
    else if result.CanSafelyJumpOnto then
      (if Above(location, 1) in closed then None else Some(Above(location, 1)))
    else Some(location)
  }

  /** What one candidate location contributes: the closed list afterwards and the
      accepted location, if any. */
  datatype Visit = Visit(Closed: set<Vector3>, Yield: Option<Vector3>)

  /** One pass of the candidate loop of `IterateAdjacentPassableBlocks`. */
  function VisitCandidate(o: FloodFillIteratorOptions, check: Oracle, closed: set<Vector3>, location: Vector3): (v: Visit)
    ensures closed <= v.Closed
    ensures IsLocationOutOfBounds(o, location) || location in closed ==> v == Visit(closed, None)
    ensures v.Yield.None? ==> v.Closed <= closed + {location}
    ensures v.Yield.Some? ==>
      v.Yield.value !in closed && v.Closed == closed + {v.Yield.value}
    ensures v.Yield.Some? && CheckSound(o, check) ==> v.Yield.value in o.Dimension
  {
    if IsLocationOutOfBounds(o, location) || location in closed then Visit(closed, None)
    else if location !in o.Dimension || !o.Dimension[location].IsValid then Visit(closed, None)
    else
      var block := o.Dimension[location];
      if IsBlockIgnored(o, block) then Visit(closed + {location}, None)
      else if IsBlockAlwaysIncluded(o, block) then Visit(closed + {location}, Some(location))
      else
        var available :=
          if o.AllowYAxisFlood then GetBlockIfPassable(o, closed, location) else WaterLikeChoice(o, check, closed, location);
        match available
        case None => Visit(closed, None)
        case Some(a) => Visit(closed + {a}, Some(a))
  }

  /** Which candidates are accepted, and as what. The bound is checked on the
      candidate; an ignored block is never accepted and an always-included one is
      accepted as itself whatever its passability; otherwise vertical mode accepts
      a passable block as itself, and water-like mode a block the safety check
      finds safe, as itself, as the block below it or as the block above it. */
  lemma VisitAcceptance(o: FloodFillIteratorOptions, check: Oracle, closed: set<Vector3>, location: Vector3)
    requires IsSafetyCheck(o, check)
    ensures var v := VisitCandidate(o, check, closed, location);
      v.Yield.Some? ==>
        !IsLocationOutOfBounds(o, location) && location in o.Dimension &&
        o.Dimension[location].IsValid && !IsBlockIgnored(o, o.Dimension[location]) &&
        (IsBlockAlwaysIncluded(o, o.Dimension[location]) ==> v.Yield.value == location) &&
        (o.AllowYAxisFlood ==> v.Yield.value == location) &&
        (o.AllowYAxisFlood && !IsBlockAlwaysIncluded(o, o.Dimension[location]) ==>
           IsBlockPassable(o, o.Dimension[location])) &&
        (!o.AllowYAxisFlood && !IsBlockAlwaysIncluded(o, o.Dimension[location]) ==>
           RunBlockSafetyCheck(o.Dimension, location, FloodSafetyOptions(o)).IsSafe &&
           (v.Yield.value == location || v.Yield.value == Below(location, 1) || v.Yield.value == Above(location, 1)))
    ensures var v := VisitCandidate(o, check, closed, location);
      !IsLocationOutOfBounds(o, location) && location !in closed &&
      location in o.Dimension && IsBlockIgnored(o, o.Dimension[location]) ==>
        v == Visit(closed + {location}, None)
    ensures var v := VisitCandidate(o, check, closed, location);
      !IsLocationOutOfBounds(o, location) && location !in closed &&
      location in o.Dimension && !IsBlockIgnored(o, o.Dimension[location]) &&
      IsBlockAlwaysIncluded(o, o.Dimension[location]) ==>
        v == Visit(closed + {location}, Some(location))
  {
  }

  /** In vertical mode `GetBlockIfPassable` decides an ordinary candidate: one
      in bounds, not closed, readable, neither ignored nor always included is
      accepted, as itself, exactly when it is valid and passable, and then it
      alone joins the closed list. */
  lemma VerticalAcceptance(o: FloodFillIteratorOptions, check: Oracle, closed: set<Vector3>, location: Vector3)
    requires o.AllowYAxisFlood
    requires !IsLocationOutOfBounds(o, location) && location !in closed && location in o.Dimension
    requires !IsBlockIgnored(o, o.Dimension[location]) && !IsBlockAlwaysIncluded(o, o.Dimension[location])
    ensures var v := VisitCandidate(o, check, closed, location);
      (v.Yield.Some? <==> o.Dimension[location].IsValid && IsBlockPassable(o, o.Dimension[location])) &&
      (v.Yield.Some? ==> v == Visit(closed + {location}, Some(location))) &&
      (v.Yield.None? ==> v.Closed == closed)
  {
  }

  /** What a whole list of candidates contributes, in order. */
  datatype Sweep = Sweep(Closed: set<Vector3>, Accepted: seq<Vector3>)

  function SweepOf(o: FloodFillIteratorOptions, check: Oracle, closed: set<Vector3>, locations: seq<Vector3>): Sweep
    decreases |locations|
  {
    if locations == [] then Sweep(closed, [])
    else
      var v := VisitCandidate(o, check, closed, locations[0]);
      var rest := SweepOf(o, check, v.Closed, locations[1..]);
      Sweep(rest.Closed, (if v.Yield.Some? then [v.Yield.value] else []) + rest.Accepted)
  }

  lemma AfterAfter(a: seq<Vector3>, b: seq<Vector3>, s: Sweep)
    ensures After(a, After(b, s)) == After(a + b, s)
  {
    assert a + (b + s.Accepted) == (a + b) + s.Accepted;
  }

  /** A sweep is its first visit followed by the sweep of the rest. */
  lemma SweepStep(o: FloodFillIteratorOptions, check: Oracle, closed: set<Vector3>, locations: seq<Vector3>)
    requires locations != []
    ensures var v := VisitCandidate(o, check, closed, locations[0]);
      SweepOf(o, check, closed, locations) ==
        After(if v.Yield.Some? then [v.Yield.value] else [], SweepOf(o, check, v.Closed, locations[1..]))
  {
  }

  /** `accepted` in front of a sweep's accepted locations. */
  function After(accepted: seq<Vector3>, s: Sweep): Sweep {
    Sweep(s.Closed, accepted + s.Accepted)
  }

  /** `s` only adds to `closed`; it accepts no location twice and none that was
      closed before it, it closes every location it accepts, and every accepted
      location can be read. */
  ghost predicate FreshSweep(grid: Grid, closed: set<Vector3>, s: Sweep) {
    closed <= s.Closed && NoDup(s.Accepted) &&
    forall i :: 0 <= i < |s.Accepted| ==>
      s.Accepted[i] in grid && s.Accepted[i] !in closed && s.Accepted[i] in s.Closed
  }

  /** A fresh visit followed by a fresh sweep is a fresh sweep. */
  lemma FreshAfter(grid: Grid, closed: set<Vector3>, v: Visit, rest: Sweep)
    requires closed <= v.Closed
    requires v.Yield.Some? ==> v.Yield.value in grid && v.Yield.value !in closed && v.Yield.value in v.Closed
    requires FreshSweep(grid, v.Closed, rest)
    ensures FreshSweep(grid, closed, After(if v.Yield.Some? then [v.Yield.value] else [], rest))
  {
    if v.Yield.Some? {
      var y := v.Yield.value;
      assert y !in rest.Accepted by {
        forall k | 0 <= k < |rest.Accepted| ensures rest.Accepted[k] != y {
          assert rest.Accepted[k] !in v.Closed;
        }
      }
      NoDupCons(y, rest.Accepted);
      var r := [y] + rest.Accepted;
      forall i | 0 <= i < |r| ensures r[i] in grid && r[i] !in closed && r[i] in rest.Closed {
        if i > 0 {
          assert r[i] == rest.Accepted[i - 1];
        }
      }
    } else {
      assert [] + rest.Accepted == rest.Accepted;
    }
  }

  /** Every sweep from a sound check is fresh. */
  lemma {:induction false} SweepFresh(o: FloodFillIteratorOptions, check: Oracle, closed: set<Vector3>, locations: seq<Vector3>)
    requires CheckSound(o, check)
    ensures FreshSweep(o.Dimension, closed, SweepOf(o, check, closed, locations))
    decreases |locations|
  {
    if locations != [] {
      var v := VisitCandidate(o, check, closed, locations[0]);
      SweepFresh(o, check, v.Closed, locations[1..]);
      SweepStep(o, check, closed, locations);
      FreshAfter(o.Dimension, closed, v, SweepOf(o, check, v.Closed, locations[1..]));
    }
  }

  /** The eight candidate positions at the block's own height, as listed: the
      `z - 1` neighbour directly behind is missing and `z - 2` is there instead. */
  function FlatPositions(f: Vector3): seq<Vector3> {
    [Vector3(f.x + 1, f.y, f.z), Vector3(f.x + 1, f.y, f.z + 1), Vector3(f.x + 1, f.y, f.z - 1),
     Vector3(f.x, f.y, f.z + 1), Vector3(f.x, f.y, f.z - 2),
     Vector3(f.x - 1, f.y, f.z), Vector3(f.x - 1, f.y, f.z + 1), Vector3(f.x - 1, f.y, f.z - 1)]
  }

  /** For each position, the one above it and the one below it. */
  function ShiftedCopies(s: seq<Vector3>): (r: seq<Vector3>)
    ensures |r| == 2 * |s|
    ensures forall i :: 0 <= i < |s| ==> r[2 * i] == Above(s[i], 1) && r[2 * i + 1] == Below(s[i], 1)
  {
    if s == [] then []
    else
      var rest := ShiftedCopies(s[1..]);
      assert forall i :: 1 <= i < |s| ==> s[i] == s[1..][i - 1];
      [Above(s[0], 1), Below(s[0], 1)] + rest
  }

  /** The candidate positions around `f`: the eight flat ones, and in vertical mode
      also the position above, followed by the shifted copies of all nine. */
  function AdjacentPositions(f: Vector3, vertical: bool): seq<Vector3> {
    if vertical then
      var nine := FlatPositions(f) + [Above(f, 1)];
      nine + ShiftedCopies(nine)
    else FlatPositions(f)
  }

  /** In water-like mode the candidates are eight distinct positions at the same
      height: the three on each side in x, and in the middle column `z + 1` and `z - 2`. */
  lemma FlatCandidatePositions(f: Vector3)
    ensures var r := AdjacentPositions(f, false);
      |r| == 8 && NoDup(r) &&
      forall l :: l in r <==>
        l.y == f.y &&
        (((l.x == f.x + 1 || l.x == f.x - 1) && f.z - 1 <= l.z <= f.z + 1) ||
         (l.x == f.x && (l.z == f.z + 1 || l.z == f.z - 2)))
  {
    var r := AdjacentPositions(f, false);
    forall i, j | 0 <= i < j < |r| ensures r[i] != r[j] {
    }
  }

  /** In vertical mode there are 27 candidates: the eight flat ones and the one
      above, then for each of these nine the position above it and the one below
      it; the block's own position is among them, as the copy below the one above. */
  lemma VerticalCandidatePositions(f: Vector3)
    ensures var r := AdjacentPositions(f, true);
      |r| == 27 && r[..8] == AdjacentPositions(f, false) && r[8] == Above(f, 1) &&
      (forall i :: 0 <= i < 9 ==> r[9 + 2 * i] == Above(r[i], 1) && r[10 + 2 * i] == Below(r[i], 1)) &&
      f in r && Above(f, 2) in r
  {
    var nine := FlatPositions(f) + [Above(f, 1)];
    var r := AdjacentPositions(f, true);
    forall i | 0 <= i < 9 ensures r[9 + 2 * i] == Above(r[i], 1) && r[10 + 2 * i] == Below(r[i], 1) {
      assert r[i] == nine[i];
      assert r[9 + 2 * i] == ShiftedCopies(nine)[2 * i];
      assert r[10 + 2 * i] == ShiftedCopies(nine)[2 * i + 1];
    }
    assert r[26] == Below(nine[8], 1);
    assert r[25] == Above(nine[8], 1);
  }

  /** The valid ones among the locations, in order. */
  function ValidOnly(grid: Grid, s: seq<Vector3>): seq<Vector3> {
    if s == [] then []
    else (if s[0] in grid && grid[s[0]].IsValid then [s[0]] else []) + ValidOnly(grid, s[1..])
  }

  /** Filtering keeps order: it distributes over concatenation. */
  lemma {:induction false} ValidOnlyAppend(grid: Grid, s: seq<Vector3>, t: seq<Vector3>)
    ensures ValidOnly(grid, s + t) == ValidOnly(grid, s) + ValidOnly(grid, t)
  {
    if s != [] {
      assert (s + t)[1..] == s[1..] + t;
      ValidOnlyAppend(grid, s[1..], t);
    } else {
      assert s + t == t;
    }
  }

  /** What is kept is taken from the list, once for each time it occurs there. */
  lemma {:induction false} ValidOnlyWithin(grid: Grid, s: seq<Vector3>)
    ensures forall i :: 0 <= i < |ValidOnly(grid, s)| ==> ValidOnly(grid, s)[i] in s
    ensures forall i :: 0 <= i < |ValidOnly(grid, s)| ==>
      ValidOnly(grid, s)[i] in grid && grid[ValidOnly(grid, s)[i]].IsValid
    ensures NoDup(s) ==> NoDup(ValidOnly(grid, s))
  {
    if s != [] {
      ValidOnlyWithin(grid, s[1..]);
      var head := if s[0] in grid && grid[s[0]].IsValid then [s[0]] else [];
      var rest := ValidOnly(grid, s[1..]);
      var r := head + rest;
      assert ValidOnly(grid, s) == r;
      forall i | 0 <= i < |r| ensures r[i] in s && r[i] in grid && grid[r[i]].IsValid {
        if i >= |head| {
          var k := i - |head|;
          assert r[i] == rest[k];
          assert rest[k] in s[1..];
          assert rest[k] in grid;
          assert grid[rest[k]].IsValid;
        } else {
          assert r[i] == s[0];
        }
      }
      if NoDup(s) {
        assert NoDup(s[1..]) by {
          forall i, j | 0 <= i < j < |s[1..]| ensures s[1..][i] != s[1..][j] {
            assert s[1..][i] == s[i + 1] && s[1..][j] == s[j + 1];
          }
        }
        assert s[0] !in s[1..] by {
          forall k | 0 <= k < |s[1..]| ensures s[1..][k] != s[0] { assert s[1..][k] == s[k + 1]; }
        }
        forall i, j | 0 <= i < j < |r| ensures r[i] != r[j] {
          if i < |head| {
            assert r[j] == rest[j - 1] && r[j] in s[1..];
          } else {
            assert r[i] == rest[i - |head|] && r[j] == rest[j - |head|];
          }
        }
      }
    }
  }

  /** The locations the options ignore, closed before the flood starts. */
  ghost function IgnoredLocations(o: FloodFillIteratorOptions): set<Vector3> {
    set l | l in o.LocationsToIgnore
  }

  /** Every ignored location is closed. */
  ghost predicate IgnoredClosed(o: FloodFillIteratorOptions, closed: set<Vector3>) {
    forall l :: l in o.LocationsToIgnore ==> l in closed
  }

  /** No location is queued twice, and every queued location is readable, closed
      and not one of the ignored locations. */
  ghost predicate QueueInv(o: FloodFillIteratorOptions, closed: set<Vector3>, queued: seq<Vector3>) {
    NoDup(queued) &&
    forall i :: 0 <= i < |queued| ==>
      queued[i] in o.Dimension && queued[i] in closed && queued[i] !in o.LocationsToIgnore
  }

  /** Queuing what a sweep accepted keeps the queue invariant: the accepted
      locations were not closed before, so they are neither queued already nor ignored. */
  lemma QueueInvExtend(o: FloodFillIteratorOptions, closed: set<Vector3>, closed': set<Vector3>,
                       queued: seq<Vector3>, accepted: seq<Vector3>)
    requires QueueInv(o, closed, queued) && closed <= closed' && IgnoredClosed(o, closed)
    requires NoDup(accepted)
    requires forall i :: 0 <= i < |accepted| ==>
      accepted[i] in o.Dimension && accepted[i] !in closed && accepted[i] in closed'
    ensures QueueInv(o, closed', queued + accepted)
  {
    forall i, k | 0 <= i < |accepted| && 0 <= k < |queued| ensures queued[k] != accepted[i] {
      assert queued[k] in closed;
    }
    NoDupAppend(queued, accepted);
    var r := queued + accepted;
    forall i | 0 <= i < |r|
      ensures r[i] in o.Dimension && r[i] in closed' && r[i] !in o.LocationsToIgnore
    {
      if i < |queued| {
        assert r[i] == queued[i];
      } else {
        assert r[i] == accepted[i - |queued|];
      }
    }
  }

  /** Closing more locations keeps the queue invariant and the ignored ones closed. */
  lemma QueueInvGrow(o: FloodFillIteratorOptions, closed: set<Vector3>, closed': set<Vector3>, queued: seq<Vector3>)
    requires QueueInv(o, closed, queued) && IgnoredClosed(o, closed) && closed <= closed'
    ensures QueueInv(o, closed', queued) && IgnoredClosed(o, closed')
  {
  }

  /** A sweep over a run of blocks, oldest first: each block's step starts from
      the closed set the earlier ones left, and their accepted locations are
      concatenated in order. */
  function Fold(step: (set<Vector3>, Vector3) -> Sweep, closed: set<Vector3>, blocks: seq<Vector3>): Sweep
    decreases |blocks|
  {
    if blocks == [] then Sweep(closed, [])
    else
      var prev := Fold(step, closed, blocks[..|blocks| - 1]);
      var s := step(prev.Closed, blocks[|blocks| - 1]);
      Sweep(s.Closed, prev.Accepted + s.Accepted)
  }

  /** Two runs of blocks, one after the other, give what their concatenation
      gives: the second starts from the closed set the first left. */
  lemma {:induction false} FoldAppend(step: (set<Vector3>, Vector3) -> Sweep, closed: set<Vector3>,
                                      a: seq<Vector3>, b: seq<Vector3>)
    ensures var first := Fold(step, closed, a);
      var second := Fold(step, first.Closed, b);
      Fold(step, closed, a + b) == Sweep(second.Closed, first.Accepted + second.Accepted)
    decreases |b|
  {
    var first := Fold(step, closed, a);
    if b == [] {
      assert a + b == a;
    } else {
      var init := b[..|b| - 1];
      FoldAppend(step, closed, a, init);
      assert (a + b)[..|a + b| - 1] == a + init;
      var mid := Fold(step, first.Closed, init);
      var s := step(mid.Closed, b[|b| - 1]);
      assert first.Accepted + mid.Accepted + s.Accepted == first.Accepted + (mid.Accepted + s.Accepted);
    }
  }

  /** What one dequeued block contributes: a valid block sweeps its candidate
      positions; an invalid one contributes nothing. */
  function BlockSweep(o: FloodFillIteratorOptions, check: Oracle, closed: set<Vector3>, b: Vector3): Sweep {
    if b in o.Dimension && o.Dimension[b].IsValid then SweepOf(o, check, closed, AdjacentPositions(b, o.AllowYAxisFlood))
    else Sweep(closed, [])
  }

  /** `BlockSweep` as the step of a fold. */
  function BlockStep(o: FloodFillIteratorOptions, check: Oracle): (set<Vector3>, Vector3) -> Sweep {
    (c: set<Vector3>, b: Vector3) => BlockSweep(o, check, c, b)
  }

  /** What a run of dequeued blocks contributes, oldest first. */
  function ChunkSweep(o: FloodFillIteratorOptions, check: Oracle, closed: set<Vector3>, blocks: seq<Vector3>): Sweep {
    Fold(BlockStep(o, check), closed, blocks)
  }

  /** The bookkeeping of one pass of the loop in `ProcessChunk`: queuing and
      closing what the next block's step gives extends the fold by that block. */
  lemma {:induction false} FoldStep(step: (set<Vector3>, Vector3) -> Sweep, closed0: set<Vector3>,
                                    blocks: seq<Vector3>, j: nat, queued0: seq<Vector3>, queued: seq<Vector3>,
                                    queued': seq<Vector3>, closed': set<Vector3>)
    requires j < |blocks|
    requires queued == queued0 + Fold(step, closed0, blocks[..j]).Accepted
    requires var s := step(Fold(step, closed0, blocks[..j]).Closed, blocks[j]);
      closed' == s.Closed && queued' == queued + s.Accepted
    ensures var s := Fold(step, closed0, blocks[..j + 1]);
      closed' == s.Closed && queued' == queued0 + s.Accepted
  {
    assert blocks[..j + 1][..j] == blocks[..j];
    var prev := Fold(step, closed0, blocks[..j]);
    var s := step(prev.Closed, blocks[j]);
    assert queued' == queued0 + (prev.Accepted + s.Accepted);
  }

  /** The bookkeeping of one round of `IterateLocations`: if everything queued so
      far is the fold over the blocks dequeued before, and the chunk just
      processed queued its own fold, then everything queued is the fold over all
      the blocks dequeued. */
  lemma {:induction false} FoldTrace(step: (set<Vector3>, Vector3) -> Sweep, closed0: set<Vector3>, done: seq<Vector3>,
                                     blocks: seq<Vector3>, enqueued0: seq<Vector3>, enqueued: seq<Vector3>,
                                     enqueued': seq<Vector3>, dequeued': seq<Vector3>, queued: seq<Vector3>,
                                     queued': seq<Vector3>, closed: set<Vector3>)
    requires var s := Fold(step, closed0, done); closed == s.Closed && enqueued == enqueued0 + s.Accepted
    requires enqueued == dequeued' + queued && enqueued' == dequeued' + queued'
    requires queued' == queued + Fold(step, closed, blocks).Accepted
    ensures var s := Fold(step, closed0, done + blocks);
      Fold(step, closed, blocks).Closed == s.Closed && enqueued' == enqueued0 + s.Accepted
  {
    FoldAppend(step, closed0, done, blocks);
    Lists.AppendThrough(enqueued0, Fold(step, closed0, done).Accepted, Fold(step, closed, blocks).Accepted,
                        enqueued, enqueued', dequeued', queued, queued');
  }

  /** Construction fails when the start block cannot be read. */
  datatype ConstructionError = StartingBlockUnavailable

  class FloodFillIterator {
    const Queue: DataStructures.Queue<Vector3>
    const Options: FloodFillIteratorOptions
    var YieldedChunkSize: int
    const BlockSafetyCheckOptions: BlockSafetyCheckerOptions
    /** `RunBlockSafetyCheck` with `BlockSafetyCheckOptions`, as a function of the location. */
    ghost const SafetyCheck: Oracle
    /** The `GetAsString` keys of the visited or ignored locations. */
    var ClosedList: set<string>
    /** The visited or ignored locations themselves. */
    ghost var Closed: set<Vector3>
    /** Every block dequeued so far, oldest first. */
    ghost var Dequeued: seq<Vector3>
    /** Every block ever queued, oldest first: the dequeued ones, then the queue. */
    ghost var Enqueued: seq<Vector3>


    /** The closed list holds the keys of the closed locations. */
    ghost predicate ClosedKeyed()
      reads this
    {
      ClosedList == Keys(Closed)
    }

    /** The queue is well formed; the closed list is keyed by the closed locations;
        the ignored locations are closed; no location is queued twice; and every
        queued location is readable, closed and not ignored. */
    ghost predicate Valid()
      reads this, Queue
    {
      Queue.Valid() && Queue.Exact() &&
      BlockSafetyCheckOptions == FloodSafetyOptions(Options) &&
      IsSafetyCheck(Options, SafetyCheck) && CheckSound(Options, SafetyCheck) &&
      ClosedKeyed() && IgnoredClosed(Options, Closed) &&
      Enqueued == Dequeued + Queue.Contents() && QueueInv(Options, Closed, Enqueued)
    }

    /** The constructor, once the start block has been read: closes the ignored
        locations, then queues the start's accepted neighbours in order. */
    constructor (options: FloodFillIteratorOptions)
      requires options.StartLocation in options.Dimension
      ensures Valid() && fresh(Queue)
      ensures Options == options && YieldedChunkSize == 8 && Dequeued == []
      ensures var s := SweepOf(options, SafetyCheck, IgnoredLocations(options),
                               AdjacentPositions(options.StartLocation, options.AllowYAxisFlood));
        Closed == s.Closed && Queue.Contents() == s.Accepted
    {
      Queue := new DataStructures.Queue<Vector3>();
      Options := options;
      YieldedChunkSize := 8;
      BlockSafetyCheckOptions := FloodSafetyOptions(options);
      SafetyCheck := SafetyCheckOf(options);
      ClosedList := {};
      Closed := {};
      Dequeued := [];
      Enqueued := [];
      new;
      CloseIgnoredLocations();
      assert Closed == IgnoredLocations(options);
      assert Queue.Contents() == [];
      var blocks := QueueAdjacent(options.StartLocation);
      assert [] + blocks == blocks;
    }

    /** The constructor's first loop: closes every ignored location. */
    method CloseIgnoredLocations()
      requires ClosedKeyed()
      modifies this
      ensures ClosedKeyed() && Closed == old(Closed) + IgnoredLocations(Options)
      ensures Dequeued == old(Dequeued) && Enqueued == old(Enqueued) && YieldedChunkSize == old(YieldedChunkSize)
    {
      var i := 0;
      while i < |Options.LocationsToIgnore|
        invariant 0 <= i <= |Options.LocationsToIgnore|
        invariant ClosedKeyed() && Closed == old(Closed) + set l | l in Options.LocationsToIgnore[..i]
        invariant Dequeued == old(Dequeued) && Enqueued == old(Enqueued) && YieldedChunkSize == old(YieldedChunkSize)
      {
        assert Options.LocationsToIgnore[..i + 1] == Options.LocationsToIgnore[..i] + [Options.LocationsToIgnore[i]];
        AddLocationToClosedList(Options.LocationsToIgnore[i]);
        i := i + 1;
      }
      assert Options.LocationsToIgnore[..i] == Options.LocationsToIgnore;
    }

    /** `new FloodFillIterator(options)`, throwing when the start block cannot be read. */
    static method New(options: FloodFillIteratorOptions) returns (r: Result<FloodFillIterator, ConstructionError>)
      ensures r.Err? <==> options.StartLocation !in options.Dimension
      ensures r.Ok? ==> fresh(r.value) && fresh(r.value.Queue) && r.value.Valid() && r.value.Options == options
    {
      if GetBlock(options.Dimension, options.StartLocation).None? {
        return Err(StartingBlockUnavailable);
      }
      var it := new FloodFillIterator(options);
      return Ok(it);
    }

    /** `HasLocationBeenClosed` (and `HasBlockLocationBeenClosed`, on the block's
        location): the key lookup decides whether the location itself is closed. */
    predicate HasLocationBeenClosed(location: Vector3)
      reads this
      ensures ClosedKeyed() ==> (HasLocationBeenClosed(location) <==> location in Closed)
    {
      KeyedIn(Closed, location);
      GetAsString(location) in ClosedList
    }

    /** `AddLocationToClosedList`: closes the location and nothing else. */
    method AddLocationToClosedList(location: Vector3)
      modifies this
      ensures ClosedList == old(ClosedList) + {GetAsString(location)} && Closed == old(Closed) + {location}
      ensures old(ClosedKeyed()) ==> ClosedKeyed()
      ensures Dequeued == old(Dequeued) && Enqueued == old(Enqueued) && YieldedChunkSize == old(YieldedChunkSize)
    {
      ClosedList := ClosedList + {GetAsString(location)};
      Closed := Closed + {location};
      KeysAdd(old(Closed), location);
    }

    /** `SetYieldedChunkSize`. */
    method SetYieldedChunkSize(size: int)
      modifies this
      ensures YieldedChunkSize == size
      ensures ClosedList == old(ClosedList) && Closed == old(Closed) && Dequeued == old(Dequeued) && Enqueued == old(Enqueued)
    {
      YieldedChunkSize := size;
    }

    /** The candidate positions around a block, built as the source builds them. */
    method GetAdjacentPositions(from: Vector3) returns (positions: seq<Vector3>)
      ensures positions == AdjacentPositions(from, Options.AllowYAxisFlood)
    {
      positions := FlatPositions(from);
      if Options.AllowYAxisFlood {
        positions := positions + [Above(from, 1)];
        var newPositionsToAdd: seq<Vector3> := [];
        var i := 0;
        while i < |positions|
          invariant 0 <= i <= |positions|
          invariant ShiftedCopies(positions) == newPositionsToAdd + ShiftedCopies(positions[i..])
        {
          assert positions[i..][1..] == positions[i + 1..];
          newPositionsToAdd := newPositionsToAdd + [Above(positions[i], 1), Below(positions[i], 1)];
          i := i + 1;
        }
        assert ShiftedCopies(positions[i..]) == [];
        positions := positions + newPositionsToAdd;
      }
    }

    /** One candidate of `IterateAdjacentPassableBlocks`: the accepted location, if any. */
    method VisitLocation(location: Vector3) returns (accepted: Option<Vector3>)
      requires BlockSafetyCheckOptions == FloodSafetyOptions(Options) && IsSafetyCheck(Options, SafetyCheck)
      requires ClosedKeyed()
      modifies this
      ensures ClosedKeyed()
      ensures var v := VisitCandidate(Options, SafetyCheck, old(Closed), location);
        Closed == v.Closed && accepted == v.Yield
      ensures Dequeued == old(Dequeued) && Enqueued == old(Enqueued) && YieldedChunkSize == old(YieldedChunkSize)
    {
      if IsLocationOutOfBounds(Options, location) {
        return None;
      }
      if HasLocationBeenClosed(location) {
        return None;
      }
      var read := GetBlock(Options.Dimension, location);
      if read.None? || !read.value.IsValid {
        return None;
      }
      var block := read.value;
      if IsBlockIgnored(Options, block) {
        AddLocationToClosedList(location);
        return None;
      }
      if IsBlockAlwaysIncluded(Options, block) {
        AddLocationToClosedList(location);
        return Some(location);
      }
      var availableBlock: Option<Vector3> := None;
      if Options.AllowYAxisFlood {
        if block.IsValid && IsBlockPassable(Options, block) && !HasLocationBeenClosed(location) {
          availableBlock := Some(location);
        }
      } else {
        var result := RunBlockSafetyCheck(Options.Dimension, location, BlockSafetyCheckOptions);
        if result.IsSafe {
          if result.CanSafelyFallFrom {
            if !HasLocationBeenClosed(Below(location, 1)) {
              availableBlock := Some(Below(location, 1));
            }
          } else if result.CanSafelyJumpOnto {
            if !HasLocationBeenClosed(Above(location, 1)) {
              availableBlock := Some(Above(location, 1));
            }
          } else {
            availableBlock := Some(location);
          }
        }
      }
      assert availableBlock ==
        if Options.AllowYAxisFlood then GetBlockIfPassable(Options, Closed, location)
        else WaterLikeChoice(Options, SafetyCheck, Closed, location);
      if availableBlock.Some? {
        AddLocationToClosedList(availableBlock.value);
        return availableBlock;
      }
      return None;
    }

    /** `IterateAdjacentPassableBlocks`: the accepted neighbours of a block, in
        candidate order (the `null` yields carry nothing and are dropped). */
    method IterateAdjacentPassableBlocks(from: Vector3) returns (accepted: seq<Vector3>)
      requires Valid()
      modifies this
      ensures Valid()
      ensures var s := SweepOf(Options, SafetyCheck, old(Closed), AdjacentPositions(from, Options.AllowYAxisFlood));
        Closed == s.Closed && accepted == s.Accepted
      ensures NoDup(accepted) && old(Closed) <= Closed
      ensures forall i :: 0 <= i < |accepted| ==>
        accepted[i] in Options.Dimension && accepted[i] !in old(Closed) && accepted[i] in Closed
      ensures Dequeued == old(Dequeued) && Enqueued == old(Enqueued) && YieldedChunkSize == old(YieldedChunkSize)
    {
      var positions := GetAdjacentPositions(from);
      accepted := [];
      var i := 0;
      while i < |positions|
        invariant 0 <= i <= |positions|
        invariant BlockSafetyCheckOptions == FloodSafetyOptions(Options) && ClosedKeyed()
        invariant SweepOf(Options, SafetyCheck, old(Closed), positions) == After(accepted, SweepOf(Options, SafetyCheck, Closed, positions[i..]))
        invariant Dequeued == old(Dequeued) && Enqueued == old(Enqueued) && YieldedChunkSize == old(YieldedChunkSize)
      {
        ghost var closed := Closed;
        ghost var before := accepted;
        SweepStep(Options, SafetyCheck, closed, positions[i..]);
        assert positions[i..][0] == positions[i] && positions[i..][1..] == positions[i + 1..];
        var block := VisitLocation(positions[i]);
        ghost var head := if block.Some? then [block.value] else [];
        assert SweepOf(Options, SafetyCheck, closed, positions[i..]) == After(head, SweepOf(Options, SafetyCheck, Closed, positions[i + 1..]));
        if block.Some? {
          accepted := accepted + [block.value];
        }
        assert accepted == before + head;
        AfterAfter(before, head, SweepOf(Options, SafetyCheck, Closed, positions[i + 1..]));
        i := i + 1;
      }
      assert positions[i..] == [];
      SweepFresh(Options, SafetyCheck, old(Closed), positions);
      QueueInvGrow(Options, old(Closed), Closed, Enqueued);
    }

    /** The accepted neighbours of a block, queued in order: the constructor's loop
        over the start's neighbours and the chunk loop's `EnqueueList`. */
    method QueueAdjacent(from: Vector3) returns (accepted: seq<Vector3>)
      requires Valid()
      modifies this, Queue
      ensures Valid()
      ensures var s := SweepOf(Options, SafetyCheck, old(Closed), AdjacentPositions(from, Options.AllowYAxisFlood));
        Closed == s.Closed && accepted == s.Accepted && Queue.Contents() == old(Queue.Contents()) + accepted
      ensures old(Enqueued) <= Enqueued && old(Closed) <= Closed
      ensures Dequeued == old(Dequeued) && YieldedChunkSize == old(YieldedChunkSize)
    {
      ghost var closed := Closed;
      accepted := IterateAdjacentPassableBlocks(from);
      QueueInvExtend(Options, closed, Closed, Enqueued, accepted);
      EnqueueAccepted(accepted);
    }

    /** `EnqueueList` of accepted locations that may be queued. */
    method EnqueueAccepted(accepted: seq<Vector3>)
      requires Valid() && QueueInv(Options, Closed, Enqueued + accepted)
      modifies this, Queue
      ensures Valid()
      ensures Queue.Contents() == old(Queue.Contents()) + accepted && Enqueued == old(Enqueued) + accepted
      ensures Closed == old(Closed) && Dequeued == old(Dequeued) && YieldedChunkSize == old(YieldedChunkSize)
    {
      ghost var queued := Queue.Contents();
      Queue.EnqueueList(accepted);
      Enqueued := Enqueued + accepted;
      assert Dequeued + (queued + accepted) == old(Enqueued) + accepted;
    }

    /** One dequeued block of `IterateLocations`: the accepted neighbours of a valid
        block are queued, in order; an invalid block changes nothing. */
    method ProcessBlock(block: Vector3)
      requires Valid() && block in Options.Dimension
      modifies this, Queue
      ensures Valid()
      ensures var s := BlockSweep(Options, SafetyCheck, old(Closed), block);
        Closed == s.Closed && Queue.Contents() == old(Queue.Contents()) + s.Accepted
      ensures old(Enqueued) <= Enqueued && old(Closed) <= Closed
      ensures Dequeued == old(Dequeued) && YieldedChunkSize == old(YieldedChunkSize)
    {
      if Options.Dimension[block].IsValid {
        var adjacentBlocks := QueueAdjacent(block);
      }
    }

    /** The dequeuing half of one round of `IterateLocations`: takes up to
        `YieldedChunkSize` blocks off the front of the queue, oldest first. */
    method DequeueBlocks() returns (blocks: seq<Vector3>)
      requires Valid() && YieldedChunkSize >= 1
      modifies this, Queue
      ensures Valid()
      ensures var n := if old(YieldedChunkSize) < |old(Queue.Contents())| then old(YieldedChunkSize) else |old(Queue.Contents())|;
        blocks == old(Queue.Contents())[..n] && Queue.Contents() == old(Queue.Contents())[n..]
      ensures Dequeued == old(Dequeued) + blocks && Enqueued == old(Enqueued)
      ensures Closed == old(Closed) && YieldedChunkSize == old(YieldedChunkSize)
      ensures forall k :: 0 <= k < |blocks| ==> blocks[k] in Options.Dimension
    {
      ghost var queued := Queue.Contents();
      blocks := Queue.DequeueChunk(YieldedChunkSize);
      Dequeued := Dequeued + blocks;
      assert old(Dequeued) + blocks + Queue.Contents() == old(Dequeued) + queued;
      assert forall k :: 0 <= k < |blocks| ==> blocks[k] == Enqueued[|old(Dequeued)| + k];
    }

    /** One pass of the loop in `ProcessChunk`: `ProcessBlock` on the next block
        of a chunk, whose earlier blocks have been processed, and the yield of
        that block when it is valid; the chunk's sweep grows by that block. */
    method ProcessNext(blocks: seq<Vector3>, j: nat, yielded: seq<Vector3>,
                       ghost closed0: set<Vector3>, ghost queued0: seq<Vector3>) returns (yielded': seq<Vector3>)
      requires Valid() && j < |blocks| && blocks[j] in Options.Dimension
      requires yielded == ValidOnly(Options.Dimension, blocks[..j])
      requires var s := ChunkSweep(Options, SafetyCheck, closed0, blocks[..j]);
        Closed == s.Closed && Queue.Contents() == queued0 + s.Accepted
      modifies this, Queue
      ensures Valid() && yielded' == ValidOnly(Options.Dimension, blocks[..j + 1])
      ensures var s := ChunkSweep(Options, SafetyCheck, closed0, blocks[..j + 1]);
        Closed == s.Closed && Queue.Contents() == queued0 + s.Accepted
      ensures old(Enqueued) <= Enqueued && old(Closed) <= Closed
      ensures Dequeued == old(Dequeued) && YieldedChunkSize == old(YieldedChunkSize)
    {
      var block := blocks[j];
      ghost var queued := Queue.Contents();
      ProcessBlock(block);
      FoldStep(BlockStep(Options, SafetyCheck), closed0, blocks, j, queued0, queued, Queue.Contents(), Closed);
      assert blocks[..j + 1] == blocks[..j] + [block];
      ValidOnlyAppend(Options.Dimension, blocks[..j], [block]);
      assert [block][1..] == [];
      yielded' := yielded;
      if Options.Dimension[block].IsValid {
        yielded' := yielded + [block];
      }
    }

    /** The processing half of one round of `IterateLocations`: each block has its
        accepted neighbours queued when it is valid; the valid ones are yielded, in order. */
    method ProcessChunk(blocks: seq<Vector3>) returns (yielded: seq<Vector3>)
      requires Valid() && forall k :: 0 <= k < |blocks| ==> blocks[k] in Options.Dimension
      modifies this, Queue
      ensures Valid() && yielded == ValidOnly(Options.Dimension, blocks)
      ensures var s := ChunkSweep(Options, SafetyCheck, old(Closed), blocks);
        Closed == s.Closed && Queue.Contents() == old(Queue.Contents()) + s.Accepted
      ensures old(Enqueued) <= Enqueued && old(Closed) <= Closed
      ensures Dequeued == old(Dequeued) && YieldedChunkSize == old(YieldedChunkSize)
    {
      ghost var closed0, queued0 := Closed, Queue.Contents();
      yielded := [];
      var j := 0;
      assert blocks[..0] == [];
      while j < |blocks|
        invariant 0 <= j <= |blocks|
        invariant Valid() && yielded == ValidOnly(Options.Dimension, blocks[..j])
        invariant var s := ChunkSweep(Options, SafetyCheck, closed0, blocks[..j]);
          Closed == s.Closed && Queue.Contents() == queued0 + s.Accepted
        invariant old(Enqueued) <= Enqueued && closed0 <= Closed
        invariant Dequeued == old(Dequeued) && YieldedChunkSize == old(YieldedChunkSize)
      {
        yielded := ProcessNext(blocks, j, yielded, closed0, queued0);
        j := j + 1;
      }
      assert blocks[..j] == blocks;
    }

    /** One round of the loop in `IterateLocations`: dequeue a chunk, process
        it and add its yields; what the run has queued and closed stays the
        chunk sweep of everything dequeued since it started. */
    method DrainChunk(ghost closed0: set<Vector3>, ghost enqueued0: seq<Vector3>, ghost n0: nat, yielded: seq<Vector3>)
      returns (yielded': seq<Vector3>)
      requires Valid() && YieldedChunkSize >= 1 && Queue.Length() != 0
      requires enqueued0 <= Enqueued && n0 <= |Dequeued| && closed0 <= Closed
      requires yielded == ValidOnly(Options.Dimension, Dequeued[n0..])
      requires var s := ChunkSweep(Options, SafetyCheck, closed0, Dequeued[n0..]);
        Closed == s.Closed && Enqueued == enqueued0 + s.Accepted
      modifies this, Queue
      ensures Valid() && YieldedChunkSize == old(YieldedChunkSize)
      ensures enqueued0 <= Enqueued && |old(Dequeued)| < |Dequeued| <= |Options.Dimension.Keys| && closed0 <= Closed
      ensures yielded' == ValidOnly(Options.Dimension, Dequeued[n0..])
      ensures var s := ChunkSweep(Options, SafetyCheck, closed0, Dequeued[n0..]);
        Closed == s.Closed && Enqueued == enqueued0 + s.Accepted
    {
      ghost var before, enqueued := Dequeued, Enqueued;
      var blocks := DequeueBlocks();
      ghost var closed, queued := Closed, Queue.Contents();
      var chunk := ProcessChunk(blocks);
      yielded' := yielded + chunk;
      ghost var done := before[n0..];
      DropAppend(before, blocks, n0);
      ValidOnlyAppend(Options.Dimension, done, blocks);
      FoldTrace(BlockStep(Options, SafetyCheck), closed0, done, blocks, enqueued0, enqueued, Enqueued,
                Dequeued, queued, Queue.Contents(), closed);
      NoDupWithin(Enqueued, Options.Dimension.Keys);
    }

    /** `IterateLocations`: drains the queue chunk by chunk; each valid dequeued block
        has its accepted neighbours queued and is then yielded. The yielded blocks
        are the valid ones among everything queued, in queue order, none twice. */
    method IterateLocations() returns (yielded: seq<Vector3>)
      requires Valid() && YieldedChunkSize >= 1
      modifies this, Queue
      ensures Valid() && Queue.Contents() == []
      ensures old(Enqueued) <= Enqueued && Dequeued == Enqueued
      ensures |old(Dequeued)| <= |Dequeued| && yielded == ValidOnly(Options.Dimension, Dequeued[|old(Dequeued)|..])
      ensures var s := ChunkSweep(Options, SafetyCheck, old(Closed), Dequeued[|old(Dequeued)|..]);
        Closed == s.Closed && Enqueued == old(Enqueued) + s.Accepted
      ensures NoDup(yielded)
      ensures old(Closed) <= Closed
    {
      yielded := [];
      NoDupWithin(Enqueued, Options.Dimension.Keys);
      assert Dequeued[|old(Dequeued)|..] == [];
      assert Enqueued == old(Enqueued) + [];
      while !Queue.IsEmpty()
        invariant Valid() && YieldedChunkSize == old(YieldedChunkSize)
        invariant old(Enqueued) <= Enqueued && |old(Dequeued)| <= |Dequeued| <= |Options.Dimension.Keys|
        invariant yielded == ValidOnly(Options.Dimension, Dequeued[|old(Dequeued)|..])
        invariant var s := ChunkSweep(Options, SafetyCheck, old(Closed), Dequeued[|old(Dequeued)|..]);
          Closed == s.Closed && Enqueued == old(Enqueued) + s.Accepted
        invariant old(Closed) <= Closed
        decreases |Options.Dimension.Keys| - |Dequeued|
      {
        yielded := DrainChunk(old(Closed), old(Enqueued), |old(Dequeued)|, yielded);
      }
      assert Dequeued == Enqueued;
      NoDupDrop(Dequeued, |old(Dequeued)|);
      ValidOnlyWithin(Options.Dimension, Dequeued[|old(Dequeued)|..]);
    }
  }
}
