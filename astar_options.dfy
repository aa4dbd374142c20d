/** Configuration shared by both A* searches. */
module PathfinderOptions {
  import opened VectorUtils
  import opened World

  datatype AStarOptions = AStarOptions(
    StartLocation: Vector3,
    GoalLocation: Vector3,
    Dimension: Grid,
    /** Declared but never read by either search. */
    LocationsToIgnore: seq<Vector3>,
    /** The search gives up once this many locations are closed. */
    MaximumNodesToConsider: int,
    /** Declared but never read by either search. */
    TagsToIgnore: seq<string>,
    /** Declared but never read by either search. */
    TypeIdsToIgnore: seq<string>,
    TagsToConsiderPassable: seq<string>,
    TypeIdsToConsiderPassable: seq<string>,
    TypeIdsThatCannotBeJumpedOver: seq<string>,
    AllowYAxisFlood: bool,
    DebugMode: bool)

  /** `new AStarOptions(start, goal, dimension)`: stores exactly the three
      arguments; at most 100 closed locations; every list empty; no free
      vertical movement and no debug blocks. */
  function NewAStarOptions(startLocation: Vector3, goalLocation: Vector3, dimension: Grid): (o: AStarOptions)
    ensures o.StartLocation == startLocation && o.GoalLocation == goalLocation && o.Dimension == dimension
    ensures o.MaximumNodesToConsider == 100
    ensures o.LocationsToIgnore == [] && o.TagsToIgnore == [] && o.TypeIdsToIgnore == []
    ensures o.TagsToConsiderPassable == [] && o.TypeIdsToConsiderPassable == []
    ensures o.TypeIdsThatCannotBeJumpedOver == []
    ensures !o.AllowYAxisFlood && !o.DebugMode
  {
    AStarOptions(startLocation, goalLocation, dimension, [], 100, [], [], [], [], [], false, false)
  }
}
