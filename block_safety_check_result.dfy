/** The record of flags that a safety check produces. */
module SafetyResult {

  datatype BlockSafetyCheckResult = BlockSafetyCheckResult(
    IsSafe: bool,
    CanSafelyFallFrom: bool,
    CanSafelyJumpOnto: bool,
    IsPossibleCliff: bool,
    IsWater: bool,
    IsLava: bool,
    HasWaterBelow: bool,
    HasLavaBelow: bool,
    NotEnoughSpaceAboveBlockToWalkTo: bool,
    NotEnoughSpaceAboveBlockToJumpTo: bool,
    CannotBeJumpedOver: bool,
    AdjacentBlockIsInUnloadedChunk: bool)

  /** `new BlockSafetyCheckResult()`. */
  function NewBlockSafetyCheckResult(): (r: BlockSafetyCheckResult)
    ensures !r.IsSafe && ReasonCount(r) == 0
  {
    BlockSafetyCheckResult(false, false, false, false, false, false,
                           false, false, false, false, false, false)
  }

  function B(b: bool): nat { if b then 1 else 0 }

  /** How many of the eleven flags other than IsSafe are set. */
  function ReasonCount(r: BlockSafetyCheckResult): nat {
    B(r.CanSafelyFallFrom) + B(r.CanSafelyJumpOnto) + B(r.IsPossibleCliff) + B(r.IsWater)
    + B(r.IsLava) + B(r.HasWaterBelow) + B(r.HasLavaBelow)
    + B(r.NotEnoughSpaceAboveBlockToWalkTo) + B(r.NotEnoughSpaceAboveBlockToJumpTo)
    + B(r.CannotBeJumpedOver) + B(r.AdjacentBlockIsInUnloadedChunk)
  }

  /** What the field documentation promises about a result: the fall and jump
      flags are only meaningful (and only set) when IsSafe holds; the headroom,
      cannot-jump and unloaded flags only appear on unsafe results. */
  predicate Documented(r: BlockSafetyCheckResult) {
    && (r.CanSafelyFallFrom ==> r.IsSafe)
    && (r.CanSafelyJumpOnto ==> r.IsSafe)
    && (r.NotEnoughSpaceAboveBlockToWalkTo ==> !r.IsSafe)
    && (r.NotEnoughSpaceAboveBlockToJumpTo ==> !r.IsSafe)
    && (r.CannotBeJumpedOver ==> !r.IsSafe)
    && (r.AdjacentBlockIsInUnloadedChunk ==> !r.IsSafe)
  }
}
