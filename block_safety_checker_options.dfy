/** Configuration of the safety check. */
module SafetyOptions {

  datatype BlockSafetyCheckerOptions = BlockSafetyCheckerOptions(
    EntityHeight: int,
    TypeIdsToConsiderPassable: seq<string>,
    TagsToConsiderPassable: seq<string>,
    TypeIdsThatCannotBeJumpedOver: seq<string>,
    TagIdsThatCannotBeJumpedOver: seq<string>,
    /** Read by the check but never declared by the options class; absent means false. */
    AllowYAxisFlood: bool)

  /** `new BlockSafetyCheckerOptions()`: a two-block-high entity, nothing passable,
      nothing excluded from jumping, no free vertical movement. */
  function NewBlockSafetyCheckerOptions(): (o: BlockSafetyCheckerOptions)
    ensures o.EntityHeight == 2
    ensures o.TypeIdsToConsiderPassable == [] && o.TagsToConsiderPassable == []
    ensures o.TypeIdsThatCannotBeJumpedOver == [] && o.TagIdsThatCannotBeJumpedOver == []
    ensures !o.AllowYAxisFlood
  {
    BlockSafetyCheckerOptions(2, [], [], [], [], false)
  }
}
