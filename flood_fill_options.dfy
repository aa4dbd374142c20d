/** Configuration of the flood fill. */
module FloodFillOptions {
  import opened VectorUtils
  import opened World

  datatype FloodFillIteratorOptions = FloodFillIteratorOptions(
    StartLocation: Vector3,
    Dimension: Grid,
    /** Euclidean bound on the distance of a candidate from the start. */
    MaxDistance: real,
    LocationsToIgnore: seq<Vector3>,
    TagsToIgnore: seq<string>,
    TypeIdsToIgnore: seq<string>,
    TagsToConsiderPassable: seq<string>,
    TypeIdsToConsiderPassable: seq<string>,
    /** Included in the result whether or not they are passable. */
    TypeIdsToAlwaysIncludeInResult: seq<string>,
    /** Included in the result whether or not they are passable. */
    TagsToAlwaysIncludeInResult: seq<string>,
    TypeIdsThatCannotBeJumpedOver: seq<string>,
    AllowYAxisFlood: bool)

  /** `new FloodFillIteratorOptions(start, dimension, maxDistance)`: stores exactly
      the three arguments; every list empty; no free vertical movement. */
  function NewFloodFillIteratorOptions(startLocation: Vector3, dimension: Grid, maxDistance: real): (o: FloodFillIteratorOptions)
    ensures o.StartLocation == startLocation && o.Dimension == dimension && o.MaxDistance == maxDistance
    ensures o.LocationsToIgnore == [] && o.TagsToIgnore == [] && o.TypeIdsToIgnore == []
    ensures o.TagsToConsiderPassable == [] && o.TypeIdsToConsiderPassable == []
    ensures o.TypeIdsToAlwaysIncludeInResult == [] && o.TagsToAlwaysIncludeInResult == []
    ensures o.TypeIdsThatCannotBeJumpedOver == []
    ensures !o.AllowYAxisFlood
  {
    FloodFillIteratorOptions(startLocation, dimension, maxDistance, [], [], [], [], [], [], [], [], false)
  }
}
