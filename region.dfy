/** Axis-aligned boxes of block locations and the hollow cube surface. */
module Region {
  import opened Lists
  import opened VectorUtils

  function Min(a: int, b: int): int { if a < b then a else b }
  function Max(a: int, b: int): int { if a < b then b else a }

  /** `CuboidRegion`: the box spanned by two corners, in either order. */
  datatype CuboidRegion = CuboidRegion(Corner1: Vector3, Corner2: Vector3, CuboidRadius: int, IsVerticallyFlat: bool)

  /** `FromCenterLocation`: the corners `location ∓ radius`; a vertically flat
      region keeps the centre's y on both corners. */
  function FromCenterLocation(location: Vector3, cuboidRadius: int, isVerticallyFlat: bool): (r: CuboidRegion)
    ensures r.CuboidRadius == cuboidRadius && r.IsVerticallyFlat == isVerticallyFlat
  {
    var dy := if isVerticallyFlat then 0 else cuboidRadius;
    CuboidRegion(
      Vector3(location.x - cuboidRadius, location.y - dy, location.z - cuboidRadius),
      Vector3(location.x + cuboidRadius, location.y + dy, location.z + cuboidRadius),
      cuboidRadius, isVerticallyFlat)
  }

  /** The locations with z from z0 to z1 in increasing order, at fixed x and y. */
  function ZRow(x: int, y: int, z0: int, z1: int): seq<Vector3>
    decreases z1 - z0
  {
    if z1 < z0 then [] else ZRow(x, y, z0, z1 - 1) + [Vector3(x, y, z1)]
  }

  /** Rows for y from y0 to y1, each row from z0 to z1, at fixed x. */
  function YPlane(x: int, y0: int, y1: int, z0: int, z1: int): seq<Vector3>
    decreases y1 - y0
  {
    if y1 < y0 then [] else YPlane(x, y0, y1 - 1, z0, z1) + ZRow(x, y1, z0, z1)
  }

  /** The box in the order of three nested loops: x outermost, z innermost. */
  function Box(x0: int, x1: int, y0: int, y1: int, z0: int, z1: int): seq<Vector3>
    decreases x1 - x0
  {
    if x1 < x0 then [] else Box(x0, x1 - 1, y0, y1, z0, z1) + YPlane(x1, y0, y1, z0, z1)
  }

  /** The locations of a region, between the component-wise minimum and maximum corner. */
  function Locations(region: CuboidRegion): seq<Vector3> {
    var c1 := region.Corner1;
    var c2 := region.Corner2;
    Box(Min(c1.x, c2.x), Max(c1.x, c2.x), Min(c1.y, c2.y), Max(c1.y, c2.y), Min(c1.z, c2.z), Max(c1.z, c2.z))
  }

  /** `GetAllLocationsInRegion`: every location of the box, x outermost and z innermost. */
  method GetAllLocationsInRegion(region: CuboidRegion) returns (locations: seq<Vector3>)
    ensures locations == Locations(region)
  {
    var c1 := region.Corner1;
    var c2 := region.Corner2;
    var top := Vector3(Min(c1.x, c2.x), Min(c1.y, c2.y), Min(c1.z, c2.z));
    var bottom := Vector3(Max(c1.x, c2.x), Max(c1.y, c2.y), Max(c1.z, c2.z));
    locations := [];
    var x := top.x;
    while x <= bottom.x
      invariant top.x <= x <= bottom.x + 1
      invariant locations == Box(top.x, x - 1, top.y, bottom.y, top.z, bottom.z)
      decreases bottom.x - x
    {
      var y := top.y;
      while y <= bottom.y
        invariant top.y <= y <= bottom.y + 1
        invariant locations == Box(top.x, x - 1, top.y, bottom.y, top.z, bottom.z) + YPlane(x, top.y, y - 1, top.z, bottom.z)
        decreases bottom.y - y
      {
        var z := top.z;
        while z <= bottom.z
          invariant top.z <= z <= bottom.z + 1
          invariant locations == Box(top.x, x - 1, top.y, bottom.y, top.z, bottom.z)
            + YPlane(x, top.y, y - 1, top.z, bottom.z) + ZRow(x, y, top.z, z - 1)
          decreases bottom.z - z
        {
          locations := locations + [Vector3(x, y, z)];
          z := z + 1;
        }
        y := y + 1;
      }
      x := x + 1;
    }
  }

  // ---- Membership and size of a box

  lemma {:induction false} ZRowMembership(x: int, y: int, z0: int, z1: int, v: Vector3)
    ensures v in ZRow(x, y, z0, z1) <==> v.x == x && v.y == y && z0 <= v.z <= z1
    ensures |ZRow(x, y, z0, z1)| == if z1 < z0 then 0 else z1 - z0 + 1
    decreases z1 - z0
  {
    if z0 <= z1 { ZRowMembership(x, y, z0, z1 - 1, v); }
  }

  lemma {:induction false} YPlaneMembership(x: int, y0: int, y1: int, z0: int, z1: int, v: Vector3)
    ensures v in YPlane(x, y0, y1, z0, z1) <==> v.x == x && y0 <= v.y <= y1 && z0 <= v.z <= z1
    ensures |YPlane(x, y0, y1, z0, z1)| == if y1 < y0 || z1 < z0 then 0 else (y1 - y0 + 1) * (z1 - z0 + 1)
    decreases y1 - y0
  {
    if y0 <= y1 {
      YPlaneMembership(x, y0, y1 - 1, z0, z1, v);
      ZRowMembership(x, y1, z0, z1, v);
    }
  }

  /** A location is in the box `s` exactly when each coordinate lies between the
      bounds. (The box is passed as `s` so that a caller holding several boxes
      instantiates only this one.) */
  lemma {:induction false} BoxMembership(x0: int, x1: int, y0: int, y1: int, z0: int, z1: int, s: seq<Vector3>, v: Vector3)
    requires s == Box(x0, x1, y0, y1, z0, z1)
    ensures v in s <==> x0 <= v.x <= x1 && y0 <= v.y <= y1 && z0 <= v.z <= z1
    decreases x1 - x0
  {
    if x0 <= x1 {
      BoxMembership(x0, x1 - 1, y0, y1, z0, z1, Box(x0, x1 - 1, y0, y1, z0, z1), v);
      YPlaneMembership(x1, y0, y1, z0, z1, v);
    }
  }

  /** The box holds the product of its three side lengths. */
  lemma {:induction false} BoxLength(x0: int, x1: int, y0: int, y1: int, z0: int, z1: int)
    ensures |Box(x0, x1, y0, y1, z0, z1)| ==
      if x1 < x0 || y1 < y0 || z1 < z0 then 0 else (x1 - x0 + 1) * (y1 - y0 + 1) * (z1 - z0 + 1)
    decreases x1 - x0
  {
    if x0 <= x1 {
      BoxLength(x0, x1 - 1, y0, y1, z0, z1);
      YPlaneMembership(x1, y0, y1, z0, z1, Vector3(0, 0, 0));
      var plane := |YPlane(x1, y0, y1, z0, z1)|;
      assert |Box(x0, x1, y0, y1, z0, z1)| == |Box(x0, x1 - 1, y0, y1, z0, z1)| + plane;
      if !(y1 < y0 || z1 < z0) {
        var a := x1 - x0;
        var b := y1 - y0 + 1;
        var c := z1 - z0 + 1;
        assert plane == b * c;
        assert |Box(x0, x1 - 1, y0, y1, z0, z1)| == a * b * c;
        MulStep(a, b, c);
      }
    }
  }

  lemma MulStep(a: int, b: int, c: int)
    ensures a * b * c + b * c == (a + 1) * b * c
  {
    assert a * b * c == a * (b * c);
    assert (a + 1) * b * c == (a + 1) * (b * c);
  }

  // ---- Order of a box

  /** Lexicographic order on (x, y, z), the order in which the nested loops run. */
  predicate LexLess(a: Vector3, b: Vector3) {
    a.x < b.x || (a.x == b.x && (a.y < b.y || (a.y == b.y && a.z < b.z)))
  }

  ghost predicate StrictlyIncreasing(s: seq<Vector3>) {
    forall i, j :: 0 <= i < j < |s| ==> LexLess(s[i], s[j])
  }

  lemma ConcatIncreasing(a: seq<Vector3>, b: seq<Vector3>)
    requires StrictlyIncreasing(a) && StrictlyIncreasing(b)
    requires forall u, v :: u in a && v in b ==> LexLess(u, v)
    ensures StrictlyIncreasing(a + b)
  {
    forall i, j | 0 <= i < j < |a + b| ensures LexLess((a + b)[i], (a + b)[j]) {
      if j < |a| {
      } else if i >= |a| {
        assert (a + b)[i] == b[i - |a|] && (a + b)[j] == b[j - |a|];
      } else {
        assert (a + b)[i] in a && (a + b)[j] in b;
      }
    }
  }

  lemma {:induction false} ZRowIncreasing(x: int, y: int, z0: int, z1: int)
    ensures StrictlyIncreasing(ZRow(x, y, z0, z1))
    decreases z1 - z0
  {
    if z0 <= z1 {
      ZRowIncreasing(x, y, z0, z1 - 1);
      forall u | u in ZRow(x, y, z0, z1 - 1) ensures LexLess(u, Vector3(x, y, z1)) {
        ZRowMembership(x, y, z0, z1 - 1, u);
      }
      ConcatIncreasing(ZRow(x, y, z0, z1 - 1), [Vector3(x, y, z1)]);
    }
  }

  lemma {:induction false} YPlaneIncreasing(x: int, y0: int, y1: int, z0: int, z1: int)
    ensures StrictlyIncreasing(YPlane(x, y0, y1, z0, z1))
    decreases y1 - y0
  {
    if y0 <= y1 {
      YPlaneIncreasing(x, y0, y1 - 1, z0, z1);
      ZRowIncreasing(x, y1, z0, z1);
      forall u, v | u in YPlane(x, y0, y1 - 1, z0, z1) && v in ZRow(x, y1, z0, z1) ensures LexLess(u, v) {
        YPlaneMembership(x, y0, y1 - 1, z0, z1, u);
        ZRowMembership(x, y1, z0, z1, v);
      }
      ConcatIncreasing(YPlane(x, y0, y1 - 1, z0, z1), ZRow(x, y1, z0, z1));
    }
  }

  /** The nested loops visit the box in strictly increasing (x, y, z) order. */
  lemma {:induction false} BoxIncreasing(x0: int, x1: int, y0: int, y1: int, z0: int, z1: int)
    ensures StrictlyIncreasing(Box(x0, x1, y0, y1, z0, z1))
    decreases x1 - x0
  {
    if x0 <= x1 {
      BoxIncreasing(x0, x1 - 1, y0, y1, z0, z1);
      YPlaneIncreasing(x1, y0, y1, z0, z1);
      forall u, v | u in Box(x0, x1 - 1, y0, y1, z0, z1) && v in YPlane(x1, y0, y1, z0, z1) ensures LexLess(u, v) {
        BoxMembership(x0, x1 - 1, y0, y1, z0, z1, Box(x0, x1 - 1, y0, y1, z0, z1), u);
        YPlaneMembership(x1, y0, y1, z0, z1, v);
      }
      ConcatIncreasing(Box(x0, x1 - 1, y0, y1, z0, z1), YPlane(x1, y0, y1, z0, z1));
    }
  }

  lemma IncreasingNoDup(s: seq<Vector3>)
    requires StrictlyIncreasing(s)
    ensures NoDup(s)
  {
    forall i, j | 0 <= i < j < |s| ensures s[i] != s[j] {
      assert LexLess(s[i], s[j]);
    }
  }

  // ---- Regions

  /** The locations of a region are exactly those between its corners, each once,
      in loop order; swapping the corners changes nothing. */
  lemma RegionLocations(region: CuboidRegion, v: Vector3)
    ensures var c1, c2 := region.Corner1, region.Corner2;
      v in Locations(region) <==>
        Min(c1.x, c2.x) <= v.x <= Max(c1.x, c2.x) &&
        Min(c1.y, c2.y) <= v.y <= Max(c1.y, c2.y) &&
        Min(c1.z, c2.z) <= v.z <= Max(c1.z, c2.z)
    ensures StrictlyIncreasing(Locations(region)) && NoDup(Locations(region))
    ensures Locations(region) == Locations(region.(Corner1 := region.Corner2, Corner2 := region.Corner1))
  {
    var c1, c2 := region.Corner1, region.Corner2;
    var s := Locations(region);
    BoxMembership(Min(c1.x, c2.x), Max(c1.x, c2.x), Min(c1.y, c2.y), Max(c1.y, c2.y), Min(c1.z, c2.z), Max(c1.z, c2.z), Locations(region), v);
    BoxIncreasing(Min(c1.x, c2.x), Max(c1.x, c2.x), Min(c1.y, c2.y), Max(c1.y, c2.y), Min(c1.z, c2.z), Max(c1.z, c2.z));
    IncreasingNoDup(s);
  }

  function Abs(n: int): nat { if n < 0 then -n else n }

  /** A region built around a centre holds the locations within `|radius|` of it on
      every axis (and on the centre's y when flat), as many as the sides multiply to. */
  lemma CenteredRegion(location: Vector3, radius: int, flat: bool, v: Vector3)
    ensures var s := Locations(FromCenterLocation(location, radius, flat));
      && (v in s <==>
            Abs(v.x - location.x) <= Abs(radius) && Abs(v.z - location.z) <= Abs(radius) &&
            (if flat then v.y == location.y else Abs(v.y - location.y) <= Abs(radius)))
      && |s| == (2 * Abs(radius) + 1) * (if flat then 1 else 2 * Abs(radius) + 1) * (2 * Abs(radius) + 1)
  {
    var r := FromCenterLocation(location, radius, flat);
    var c1, c2 := r.Corner1, r.Corner2;
    BoxMembership(Min(c1.x, c2.x), Max(c1.x, c2.x), Min(c1.y, c2.y), Max(c1.y, c2.y), Min(c1.z, c2.z), Max(c1.z, c2.z), Locations(r), v);
    BoxLength(Min(c1.x, c2.x), Max(c1.x, c2.x), Min(c1.y, c2.y), Max(c1.y, c2.y), Min(c1.z, c2.z), Max(c1.z, c2.z));
  }

  /** The flat radius-1 region used by the A* search: the centre and its eight
      horizontal neighbours. */
  lemma FlatNeighbourhood(location: Vector3)
    ensures var s := Locations(FromCenterLocation(location, 1, true));
      |s| == 9 && location in s && NoDup(s) &&
      forall v :: v in s <==> v.y == location.y && Abs(v.x - location.x) <= 1 && Abs(v.z - location.z) <= 1
  {
    var reg := FromCenterLocation(location, 1, true);
    CenteredRegion(location, 1, true, location);
    RegionLocations(reg, location);
    forall v ensures v in Locations(reg) <==> v.y == location.y && Abs(v.x - location.x) <= 1 && Abs(v.z - location.z) <= 1 {
      CenteredRegion(location, 1, true, v);
    }
  }

  // ---- Surface of a cube

  function Add(a: Vector3, b: Vector3): Vector3 {
    Vector3(a.x + b.x, a.y + b.y, a.z + b.z)
  }

  /** Each offset moved to `center`. */
  function Shift(center: Vector3, offsets: seq<Vector3>): (r: seq<Vector3>)
    ensures |r| == |offsets|
    ensures forall i :: 0 <= i < |offsets| ==> r[i] == Add(center, offsets[i])
  {
    seq(|offsets|, i requires 0 <= i < |offsets| => Add(center, offsets[i]))
  }

  /** Keeps the first occurrence of each offset not yet in `seen`, as the hash map of
      already-added offsets does. */
  function Dedup(seen: set<Vector3>, s: seq<Vector3>): seq<Vector3>
    decreases |s|
  {
    if s == [] then []
    else if s[0] in seen then Dedup(seen, s[1..])
    else [s[0]] + Dedup(seen + {s[0]}, s[1..])
  }

  /** The six faces in the order the source visits them: left (x = -r), right (x = r),
      top (y = r), bottom (y = -r), front (z = r), back (z = -r); each face in
      (x, y, z) loop order. */
  function Faces(r: int): seq<Vector3> {
    Box(-r, -r, -r, r, -r, r) + Box(r, r, -r, r, -r, r) +
    Box(-r, r, r, r, -r, r) + Box(-r, r, -r, -r, -r, r) +
    Box(-r, r, -r, r, r, r) + Box(-r, r, -r, r, -r, -r)
  }

  /** What `GetPositionsAlongOuterEdgeOfCube` returns: the six faces, first occurrences only, moved to the centre. */
  function Surface(center: Vector3, r: int): seq<Vector3> {
    Shift(center, Dedup({}, Faces(r)))
  }

  lemma {:induction false} DedupSnoc(seen: set<Vector3>, a: seq<Vector3>, x: Vector3)
    ensures Dedup(seen, a + [x]) == Dedup(seen, a) + (if x in seen || x in a then [] else [x])
    decreases |a|
  {
    if a == [] {
      assert [x][1..] == [];
    } else {
      assert (a + [x])[1..] == a[1..] + [x];
      if a[0] in seen {
        DedupSnoc(seen, a[1..], x);
      } else {
        DedupSnoc(seen + {a[0]}, a[1..], x);
      }
    }
  }

  lemma {:induction false} DedupMeaning(seen: set<Vector3>, s: seq<Vector3>)
    ensures forall v :: v in Dedup(seen, s) <==> v in s && v !in seen
    ensures NoDup(Dedup(seen, s))
    ensures forall v :: v in Dedup(seen, s) ==> v !in seen
    decreases |s|
  {
    if s != [] {
      var seen' := if s[0] in seen then seen else seen + {s[0]};
      DedupMeaning(seen', s[1..]);
      assert forall v :: v in s <==> v == s[0] || v in s[1..];
    }
  }

  /** `positions` are the first occurrences among the offsets `done`, moved to
      `center`, and `seen` is the set of those offsets. */
  ghost predicate Tracks(center: Vector3, done: seq<Vector3>, positions: seq<Vector3>, seen: set<Vector3>) {
    positions == Shift(center, Dedup({}, done)) && seen == set v | v in done
  }

  lemma TracksSnoc(center: Vector3, done: seq<Vector3>, positions: seq<Vector3>, seen: set<Vector3>, o: Vector3)
    requires Tracks(center, done, positions, seen)
    ensures o in seen ==> Tracks(center, done + [o], positions, seen)
    ensures o !in seen ==> Tracks(center, done + [o], positions + [Add(center, o)], seen + {o})
  {
    DedupSnoc({}, done, o);
    assert (set v | v in done + [o]) == seen + {o};
    var d := Dedup({}, done);
    if o !in seen {
      assert Shift(center, d + [o]) == Shift(center, d) + [Add(center, o)];
    }
  }

  /** The innermost loop over one face: offsets (x, y, z) for z from z0 to z1. */
  method AddRow(center: Vector3, x: int, y: int, z0: int, z1: int, ghost done: seq<Vector3>,
                positions: seq<Vector3>, seen: set<Vector3>)
    returns (positions': seq<Vector3>, seen': set<Vector3>)
    requires Tracks(center, done, positions, seen)
    ensures Tracks(center, done + ZRow(x, y, z0, z1), positions', seen')
  {
    positions', seen' := positions, seen;
    ghost var d := done;
    var z := z0;
    assert d == done + ZRow(x, y, z0, z - 1);
    while z <= z1
      invariant z0 <= z || z1 < z0
      invariant z1 < z0 ==> z == z0
      invariant z0 <= z1 ==> z <= z1 + 1
      invariant d == done + ZRow(x, y, z0, z - 1)
      invariant Tracks(center, d, positions', seen')
      decreases z1 - z
    {
      var offset := Vector3(x, y, z);
      TracksSnoc(center, d, positions', seen', offset);
      d := d + [offset];
      if offset !in seen' {
        positions' := positions' + [Add(center, offset)];
        seen' := seen' + {offset};
      }
      z := z + 1;
    }
  }

  /** The middle loop over one face: rows for y from y0 to y1 at fixed x. */
  method AddPlane(center: Vector3, x: int, y0: int, y1: int, z0: int, z1: int, ghost done: seq<Vector3>,
                  positions: seq<Vector3>, seen: set<Vector3>)
    returns (positions': seq<Vector3>, seen': set<Vector3>)
    requires Tracks(center, done, positions, seen)
    ensures Tracks(center, done + YPlane(x, y0, y1, z0, z1), positions', seen')
  {
    positions', seen' := positions, seen;
    ghost var d := done;
    var y := y0;
    assert d == done + YPlane(x, y0, y - 1, z0, z1);
    while y <= y1
      invariant y0 <= y || y1 < y0
      invariant y1 < y0 ==> y == y0
      invariant y0 <= y1 ==> y <= y1 + 1
      invariant d == done + YPlane(x, y0, y - 1, z0, z1)
      invariant Tracks(center, d, positions', seen')
      decreases y1 - y
    {
      positions', seen' := AddRow(center, x, y, z0, z1, d, positions', seen');
      d := d + ZRow(x, y, z0, z1);
      y := y + 1;
    }
  }

  /** Runs the three nested loops over one face: `lo` and `hi` bound the offsets,
      `seen` holds the offsets already added. */
  method AddFace(center: Vector3, lo: Vector3, hi: Vector3, ghost done: seq<Vector3>, positions: seq<Vector3>, seen: set<Vector3>)
    returns (positions': seq<Vector3>, seen': set<Vector3>)
    requires Tracks(center, done, positions, seen)
    ensures Tracks(center, done + Box(lo.x, hi.x, lo.y, hi.y, lo.z, hi.z), positions', seen')
  {
    positions', seen' := positions, seen;
    ghost var d := done;
    var x := lo.x;
    assert d == done + Box(lo.x, x - 1, lo.y, hi.y, lo.z, hi.z);
    while x <= hi.x
      invariant lo.x <= x || hi.x < lo.x
      invariant hi.x < lo.x ==> x == lo.x
      invariant lo.x <= hi.x ==> x <= hi.x + 1
      invariant d == done + Box(lo.x, x - 1, lo.y, hi.y, lo.z, hi.z)
      invariant Tracks(center, d, positions', seen')
      decreases hi.x - x
    {
      positions', seen' := AddPlane(center, x, lo.y, hi.y, lo.z, hi.z, d, positions', seen');
      d := d + YPlane(x, lo.y, hi.y, lo.z, hi.z);
      x := x + 1;
    }
  }

  /** `GetPositionsAlongOuterEdgeOfCube`: the six faces of the cube of radius `r`
      around `center`, each location once, in face order. */
  method GetPositionsAlongOuterEdgeOfCube(center: Vector3, r: int) returns (positions: seq<Vector3>)
    ensures positions == Surface(center, r)
  {
    var seen: set<Vector3> := {};
    positions := [];
    ghost var done: seq<Vector3> := [];
    assert Shift(center, Dedup({}, done)) == [];
    ghost var a := Box(-r, -r, -r, r, -r, r);
    ghost var b := Box(r, r, -r, r, -r, r);
    ghost var c := Box(-r, r, r, r, -r, r);
    ghost var d := Box(-r, r, -r, -r, -r, r);
    ghost var e := Box(-r, r, -r, r, r, r);
    ghost var f := Box(-r, r, -r, r, -r, -r);
    positions, seen := AddFace(center, Vector3(-r, -r, -r), Vector3(-r, r, r), done, positions, seen);
    assert done + a == a;
    positions, seen := AddFace(center, Vector3(r, -r, -r), Vector3(r, r, r), a, positions, seen);
    positions, seen := AddFace(center, Vector3(-r, r, -r), Vector3(r, r, r), a + b, positions, seen);
    positions, seen := AddFace(center, Vector3(-r, -r, -r), Vector3(r, -r, r), a + b + c, positions, seen);
    positions, seen := AddFace(center, Vector3(-r, -r, r), Vector3(r, r, r), a + b + c + d, positions, seen);
    positions, seen := AddFace(center, Vector3(-r, -r, -r), Vector3(r, r, -r), a + b + c + d + e, positions, seen);
    assert a + b + c + d + e + f == Faces(r);
  }

  function ChebyshevNorm(v: Vector3): nat {
    Max(Abs(v.x), Max(Abs(v.y), Abs(v.z)))
  }

  /** On the cube of radius `r` when every coordinate is within `r` and one of them is `±r`. */
  predicate OnCube(r: int, o: Vector3) {
    -r <= o.x <= r && -r <= o.y <= r && -r <= o.z <= r &&
    (o.x == -r || o.x == r || o.y == r || o.y == -r || o.z == r || o.z == -r)
  }

  lemma CombineFaces(r: int, o: Vector3, a: seq<Vector3>, b: seq<Vector3>, c: seq<Vector3>,
                     d: seq<Vector3>, e: seq<Vector3>, f: seq<Vector3>)
    requires o in a <==> o.x == -r && -r <= o.y <= r && -r <= o.z <= r
    requires o in b <==> o.x == r && -r <= o.y <= r && -r <= o.z <= r
    requires o in c <==> -r <= o.x <= r && o.y == r && -r <= o.z <= r
    requires o in d <==> -r <= o.x <= r && o.y == -r && -r <= o.z <= r
    requires o in e <==> -r <= o.x <= r && -r <= o.y <= r && o.z == r
    requires o in f <==> -r <= o.x <= r && -r <= o.y <= r && o.z == -r
    ensures o in a + b + c + d + e + f <==> OnCube(r, o)
  {
  }

  lemma FacesMembership(r: int, o: Vector3)
    ensures o in Faces(r) <==> OnCube(r, o)
  {
    var a, b, c := Box(-r, -r, -r, r, -r, r), Box(r, r, -r, r, -r, r), Box(-r, r, r, r, -r, r);
    var d, e, f := Box(-r, r, -r, -r, -r, r), Box(-r, r, -r, r, r, r), Box(-r, r, -r, r, -r, -r);
    BoxMembership(-r, -r, -r, r, -r, r, a, o);
    BoxMembership(r, r, -r, r, -r, r, b, o);
    BoxMembership(-r, r, r, r, -r, r, c, o);
    BoxMembership(-r, r, -r, -r, -r, r, d, o);
    BoxMembership(-r, r, -r, r, r, r, e, o);
    BoxMembership(-r, r, -r, r, -r, -r, f, o);
    CombineFaces(r, o, a, b, c, d, e, f);
  }

  lemma OnCubeNorm(r: int, o: Vector3)
    ensures OnCube(r, o) <==> r >= 0 && ChebyshevNorm(o) == r
  {
  }

  lemma ShiftMeaning(center: Vector3, s: seq<Vector3>, o: Vector3)
    ensures Add(center, o) in Shift(center, s) <==> o in s
    ensures NoDup(s) ==> NoDup(Shift(center, s))
  {
    var t := Shift(center, s);
    if Add(center, o) in t {
      var i :| 0 <= i < |t| && t[i] == Add(center, o);
      assert s[i] == o;
    }
    if o in s {
      var i :| 0 <= i < |s| && s[i] == o;
      assert t[i] == Add(center, o);
    }
    if NoDup(s) {
      forall i, j | 0 <= i < j < |t| ensures t[i] != t[j] {
        assert s[i] != s[j];
      }
    }
  }

  /** The surface holds exactly the locations at Chebyshev distance `r` from the
      centre, each once; a negative radius gives no locations. */
  lemma SurfaceMeaning(center: Vector3, r: int, v: Vector3)
    ensures var s := Surface(center, r);
      && NoDup(s)
      && (v in s <==> r >= 0 && ChebyshevNorm(Vector3(v.x - center.x, v.y - center.y, v.z - center.z)) == r)
  {
    var o := Vector3(v.x - center.x, v.y - center.y, v.z - center.z);
    assert v == Add(center, o);
    DedupMeaning({}, Faces(r));
    FacesMembership(r, o);
    OnCubeNorm(r, o);
    ShiftMeaning(center, Dedup({}, Faces(r)), o);
  }

  lemma {:induction false} DedupSeen(seen: set<Vector3>, s: seq<Vector3>)
    requires forall i :: 0 <= i < |s| ==> s[i] in seen
    ensures Dedup(seen, s) == []
    decreases |s|
  {
    if s != [] { DedupSeen(seen, s[1..]); }
  }

  /** With radius 0 the surface is the centre alone. */
  lemma SurfaceOfPoint(center: Vector3)
    ensures Surface(center, 0) == [center]
  {
    var o := Vector3(0, 0, 0);
    assert Box(0, 0, 0, 0, 0, 0) == [o] by {
      assert ZRow(0, 0, 0, 0) == [o];
      assert YPlane(0, 0, 0, 0, 0) == [o];
    }
    var f := Faces(0);
    assert f == [o, o, o, o, o, o];
    DedupSeen({o}, f[1..]);
    assert f[0] == o && f[0] !in {};
    assert Dedup({}, f) == [o] + Dedup({} + {o}, f[1..]);
    assert {} + {o} == {o};
    assert Add(center, o) == center;
  }
}
