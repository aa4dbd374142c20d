/** The grid the core reads: a snapshot of the dimension's blocks. A location
    that is missing from the map is one whose read throws or returns
    `undefined` (an unloaded chunk, outside the world). */
module World {
  import opened Wrappers
  import opened VectorUtils

  /** What a successful block read reveals: `isValid()`, `typeId`, `getTags()`. */
  datatype Cell = Cell(IsValid: bool, TypeId: string, Tags: seq<string>)

  /** The `Dimension`, as far as the core can observe it. */
  type Grid = map<Vector3, Cell>

  /** `Dimension.getBlock`. */
  function GetBlock(grid: Grid, loc: Vector3): (r: Option<Cell>)
    ensures r.Some? <==> loc in grid
  {
    if loc in grid then Some(grid[loc]) else None
  }

  /** The location of `block.below(n)`. */
  function Below(loc: Vector3, n: int): Vector3 {
    Vector3(loc.x, loc.y - n, loc.z)
  }

  /** The location of `block.above(n)`. */
  function Above(loc: Vector3, n: int): Vector3 {
    Vector3(loc.x, loc.y + n, loc.z)
  }
}
