/** The movement-safety oracle: classifies one block as a place to walk to, to
    fall from, to jump onto, or as unsafe with a reason. */
module BlockSafetyChecker {
  import opened Lists
  import opened VectorUtils
  import opened World
  import opened SafetyResult
  import opened SafetyOptions

  /** `IsPassable`: a valid block whose type id, or one of whose tags, is listed as passable. */
  predicate IsPassable(block: Cell, options: BlockSafetyCheckerOptions)
    ensures IsPassable(block, options) <==>
      block.IsValid &&
      (block.TypeId in options.TypeIdsToConsiderPassable ||
       exists t :: t in options.TagsToConsiderPassable && t in block.Tags)
  {
    if !block.IsValid then false
    else if IndexOf(options.TypeIdsToConsiderPassable, block.TypeId) > -1 then true
    else SharesAny(options.TagsToConsiderPassable, block.Tags)
  }

  /** `CanBeJumpedOver`: neither the type id nor any tag is on a cannot-jump list. */
  predicate CanBeJumpedOver(block: Cell, options: BlockSafetyCheckerOptions)
    ensures CanBeJumpedOver(block, options) <==>
      block.TypeId !in options.TypeIdsThatCannotBeJumpedOver &&
      !exists t :: t in options.TagIdsThatCannotBeJumpedOver && t in block.Tags
  {
    if IndexOf(options.TypeIdsThatCannotBeJumpedOver, block.TypeId) > -1 then false
    else !SharesAny(options.TagIdsThatCannotBeJumpedOver, block.Tags)
  }

  const Lava := "minecraft:lava"
  const Water := "minecraft:water"

  /** `IsLava`: lava counts as a hazard only when lava is not declared passable. */
  predicate IsLava(block: Cell, options: BlockSafetyCheckerOptions) {
    block.TypeId == Lava && block.TypeId !in options.TypeIdsToConsiderPassable
  }

  /** `IsWater`: likewise for water. */
  predicate IsWater(block: Cell, options: BlockSafetyCheckerOptions) {
    block.TypeId == Water && block.TypeId !in options.TypeIdsToConsiderPassable
  }

  lemma HazardNeedsReservedId(block: Cell, options: BlockSafetyCheckerOptions)
    ensures IsLava(block, options) <==> block.TypeId == Lava && Lava !in options.TypeIdsToConsiderPassable
    ensures IsWater(block, options) <==> block.TypeId == Water && Water !in options.TypeIdsToConsiderPassable
    ensures !(IsLava(block, options) && IsWater(block, options))
  {
  }

  /** Outcome of the early-exit loops that look at the blocks above a block. */
  datatype Headroom = Clear | Blocked | Unloaded

  /** The loop `for (i = from; i < count; i++)` over `block.above(i + 1)`: the first
      unreadable block gives Unloaded, the first non-passable one Blocked. */
  function ScanAbove(grid: Grid, loc: Vector3, from: int, count: int, options: BlockSafetyCheckerOptions): Headroom
    decreases count - from
  {
    if from >= count then Clear
    else if Above(loc, from + 1) !in grid then Unloaded
    else if !IsPassable(grid[Above(loc, from + 1)], options) then Blocked
    else ScanAbove(grid, loc, from + 1, count, options)
  }

  /** Block `loc.above(k)` can be read and is passable. */
  ghost predicate FreeAbove(grid: Grid, loc: Vector3, k: int, options: BlockSafetyCheckerOptions) {
    Above(loc, k) in grid && IsPassable(grid[Above(loc, k)], options)
  }

  /** The scan is Clear exactly when every block from `above(from + 1)` to
      `above(count)` is free; otherwise it reports the first one that is not. */
  lemma {:induction false} ScanAboveMeaning(grid: Grid, loc: Vector3, from: int, count: int, options: BlockSafetyCheckerOptions)
    requires from >= 0
    ensures ScanAbove(grid, loc, from, count, options) == Clear <==>
      forall k :: from < k <= count ==> FreeAbove(grid, loc, k, options)
    ensures ScanAbove(grid, loc, from, count, options) == Unloaded ==>
      exists k :: from < k <= count && Above(loc, k) !in grid &&
        forall j :: from < j < k ==> FreeAbove(grid, loc, j, options)
    ensures ScanAbove(grid, loc, from, count, options) == Blocked ==>
      exists k :: from < k <= count && Above(loc, k) in grid && !IsPassable(grid[Above(loc, k)], options) &&
        forall j :: from < j < k ==> FreeAbove(grid, loc, j, options)
    decreases count - from
  {
    if from < count {
      if Above(loc, from + 1) !in grid {
        assert !FreeAbove(grid, loc, from + 1, options);
      } else if !IsPassable(grid[Above(loc, from + 1)], options) {
        assert !FreeAbove(grid, loc, from + 1, options);
      } else {
        ScanAboveMeaning(grid, loc, from + 1, count, options);
        assert FreeAbove(grid, loc, from + 1, options);
        var r := ScanAbove(grid, loc, from + 1, count, options);
        if r == Unloaded {
          var k :| from + 1 < k <= count && Above(loc, k) !in grid &&
            forall j :: from + 1 < j < k ==> FreeAbove(grid, loc, j, options);
          assert forall j :: from < j < k ==> FreeAbove(grid, loc, j, options);
        } else if r == Blocked {
          var k :| from + 1 < k <= count && Above(loc, k) in grid && !IsPassable(grid[Above(loc, k)], options) &&
            forall j :: from + 1 < j < k ==> FreeAbove(grid, loc, j, options);
          assert forall j :: from < j < k ==> FreeAbove(grid, loc, j, options);
        }
      }
    }
  }

  const Unsafe := NewBlockSafetyCheckResult()
  const Safe := NewBlockSafetyCheckResult().(IsSafe := true)
  const UnloadedResult := NewBlockSafetyCheckResult().(AdjacentBlockIsInUnloadedChunk := true)
  const CliffResult := NewBlockSafetyCheckResult().(IsPossibleCliff := true)
  const LavaBelowResult := NewBlockSafetyCheckResult().(HasLavaBelow := true)
  const FallResult := NewBlockSafetyCheckResult().(IsSafe := true, CanSafelyFallFrom := true)
  const JumpResult := NewBlockSafetyCheckResult().(IsSafe := true, CanSafelyJumpOnto := true)
  const NoWalkSpaceResult := NewBlockSafetyCheckResult().(NotEnoughSpaceAboveBlockToWalkTo := true)
  const NoJumpSpaceResult := NewBlockSafetyCheckResult().(NotEnoughSpaceAboveBlockToJumpTo := true)
  const CannotJumpResult := NewBlockSafetyCheckResult().(CannotBeJumpedOver := true)

  /** `RunBlockSafetyCheck` on the block at `loc`. The caller holds the block, so it
      can be read; the blocks below and above it are read through `grid`. */
  function RunBlockSafetyCheck(grid: Grid, loc: Vector3, options: BlockSafetyCheckerOptions): (r: BlockSafetyCheckResult)
    requires loc in grid
    ensures Documented(r)
    ensures ReasonCount(r) <= 1
    ensures !r.IsWater && !r.IsLava && !r.HasWaterBelow
    ensures !(r.CanSafelyFallFrom && r.CanSafelyJumpOnto)
    ensures r.CanSafelyFallFrom ==> Below(loc, 1) in grid
    ensures r.CanSafelyJumpOnto && options.EntityHeight >= 1 ==> Above(loc, 1) in grid
  {
    var block := grid[loc];
    if IsPassable(block, options) then
      if Below(loc, 1) !in grid then UnloadedResult
      else if options.AllowYAxisFlood then Safe
      else
        var blockBelow := grid[Below(loc, 1)];
        if IsPassable(blockBelow, options) then
          if Below(loc, 2) !in grid then UnloadedResult
          else
            var blockFurtherBelow := grid[Below(loc, 2)];
            if IsPassable(blockFurtherBelow, options) then CliffResult
            else if IsLava(blockFurtherBelow, options) then LavaBelowResult
            // The water branch leaves HasWaterBelow false.
            else if IsWater(blockFurtherBelow, options) then Unsafe
            else FallResult
        else if IsLava(blockBelow, options) then LavaBelowResult
        else if IsWater(blockBelow, options) then Unsafe
        else
          match ScanAbove(grid, loc, 0, options.EntityHeight - 1, options)
          case Clear => Safe
          case Blocked => NoWalkSpaceResult
          case Unloaded => UnloadedResult
    else if !CanBeJumpedOver(block, options) then CannotJumpResult
    else
      var scan := ScanAbove(grid, loc, 0, options.EntityHeight, options);
      assert scan == Clear && options.EntityHeight >= 1 ==> FreeAbove(grid, loc, 1, options) by {
        ScanAboveMeaning(grid, loc, 0, options.EntityHeight, options);
      }
      match scan
      case Clear => JumpResult
      case Blocked => NoJumpSpaceResult
      case Unloaded => UnloadedResult
  }

  /** True when the block at `loc` and the one below are passable (the fall branch). */
  ghost predicate PassablePassable(grid: Grid, loc: Vector3, options: BlockSafetyCheckerOptions) {
    loc in grid && IsPassable(grid[loc], options) && !options.AllowYAxisFlood &&
    Below(loc, 1) in grid && IsPassable(grid[Below(loc, 1)], options)
  }

  lemma UnreadableBelow(grid: Grid, loc: Vector3, options: BlockSafetyCheckerOptions)
    requires loc in grid && IsPassable(grid[loc], options) && Below(loc, 1) !in grid
    ensures RunBlockSafetyCheck(grid, loc, options) == UnloadedResult
  {
  }

  lemma VerticalModeSkipsChecks(grid: Grid, loc: Vector3, options: BlockSafetyCheckerOptions)
    requires loc in grid && IsPassable(grid[loc], options) && Below(loc, 1) in grid
    requires options.AllowYAxisFlood
    ensures RunBlockSafetyCheck(grid, loc, options) == Safe
  {
  }

  lemma CliffOrUnloaded(grid: Grid, loc: Vector3, options: BlockSafetyCheckerOptions)
    requires PassablePassable(grid, loc, options)
    ensures Below(loc, 2) !in grid ==> RunBlockSafetyCheck(grid, loc, options) == UnloadedResult
    ensures Below(loc, 2) in grid && IsPassable(grid[Below(loc, 2)], options) ==>
      RunBlockSafetyCheck(grid, loc, options) == CliffResult
  {
  }

  /** Passable, passable, solid: a fall onto the solid block unless it is a hazard;
      the blocks above are not looked at. */
  lemma FallBranch(grid: Grid, loc: Vector3, options: BlockSafetyCheckerOptions)
    requires PassablePassable(grid, loc, options)
    requires Below(loc, 2) in grid && !IsPassable(grid[Below(loc, 2)], options)
    ensures var r := RunBlockSafetyCheck(grid, loc, options);
      && (IsLava(grid[Below(loc, 2)], options) ==> r == LavaBelowResult)
      && (IsWater(grid[Below(loc, 2)], options) ==> r == Unsafe && !r.HasWaterBelow)
      && (!IsLava(grid[Below(loc, 2)], options) && !IsWater(grid[Below(loc, 2)], options) ==> r == FallResult)
  {
  }

  /** Passable over solid ground: hazards below are refused, then the
      `EntityHeight - 1` blocks above must all be free. */
  lemma WalkBranch(grid: Grid, loc: Vector3, options: BlockSafetyCheckerOptions)
    requires loc in grid && IsPassable(grid[loc], options) && !options.AllowYAxisFlood
    requires Below(loc, 1) in grid && !IsPassable(grid[Below(loc, 1)], options)
    ensures var r := RunBlockSafetyCheck(grid, loc, options);
      && (IsLava(grid[Below(loc, 1)], options) ==> r == LavaBelowResult)
      && (IsWater(grid[Below(loc, 1)], options) ==> r == Unsafe)
      && (!IsLava(grid[Below(loc, 1)], options) && !IsWater(grid[Below(loc, 1)], options) ==>
            ((r == Safe) <==> forall k :: 0 < k <= options.EntityHeight - 1 ==> FreeAbove(grid, loc, k, options))
            && (r == Safe || r == NoWalkSpaceResult || r == UnloadedResult))
  {
    ScanAboveMeaning(grid, loc, 0, options.EntityHeight - 1, options);
  }

  /** A solid block: refused when on a cannot-jump list, otherwise a jump target
      exactly when the `EntityHeight` blocks above are free. */
  lemma JumpBranch(grid: Grid, loc: Vector3, options: BlockSafetyCheckerOptions)
    requires loc in grid && !IsPassable(grid[loc], options)
    ensures var r := RunBlockSafetyCheck(grid, loc, options);
      && (!CanBeJumpedOver(grid[loc], options) ==> r == CannotJumpResult)
      && (CanBeJumpedOver(grid[loc], options) ==>
            ((r == JumpResult) <==> forall k :: 0 < k <= options.EntityHeight ==> FreeAbove(grid, loc, k, options))
            && (r == JumpResult || r == NoJumpSpaceResult || r == UnloadedResult))
  {
    ScanAboveMeaning(grid, loc, 0, options.EntityHeight, options);
  }

  /** With the default options nothing is passable, so every block goes down the
      jump branch and finds only solid blocks above it: nothing is safe. */
  lemma DefaultOptionsRefuseEverything(grid: Grid, loc: Vector3)
    requires loc in grid
    ensures !IsPassable(grid[loc], NewBlockSafetyCheckerOptions())
    ensures !RunBlockSafetyCheck(grid, loc, NewBlockSafetyCheckerOptions()).IsSafe
  {
    var o := NewBlockSafetyCheckerOptions();
    JumpBranch(grid, loc, o);
    assert !FreeAbove(grid, loc, 1, o);
  }
}
