/**
 * `CheckArenaCollision` (MyStrategy.cpp): the nearest arena surface to an
 * entity, as a unit normal and a penetration depth.  The arena is a box of
 * half-extents width x height x depth with rounded vertical corners, rounded
 * top and bottom edges and a goal opening in each end wall; axis-range tests
 * pick the region, and each leaf computes its depth in closed form and keeps
 * it only if it is positive.
 */
module Collision {
  import opened Linal
  import opened World

  const Up: Vec3 := Vec3(0.0, 1.0, 0.0)
  const Down: Vec3 := Vec3(0.0, -1.0, 0.0)

  /** The central column, `|z| <= depth - corner_radius` and `|x| <= width - top_radius`, where only the floor and the ceiling are near. */
  predicate InColumn(p: Vec3, a: Arena)
  {
    Abs(p.z) <= a.depth - a.cornerRadius && Abs(p.x) <= a.width - a.topRadius
  }

  /** The vertical lines through the centres of the goal-post seams, where the seam leaf would normalise a zero vector. */
  predicate OnGoalPostAxis(p: Vec3, a: Arena)
  {
    Abs(p.x) == (a.goalWidth + a.goalSideRadius) / 2.0 && Abs(p.z) == a.depth + a.goalSideRadius
  }

  /**
   * When the probe is defined: the entity is not at mid-height of the central
   * column (where the probe divides by `|pos.y - height|`) and not on a
   * goal-post axis, the two places the source divides by zero; and, as
   * assumptions of this model the source does not state, the arena is valid
   * and the entity is no larger than the edge blends.
   */
  predicate ProbeDefined(e: Entity, a: Arena)
  {
    ArenaValid(a) &&
    0.0 < e.radius && e.radius <= a.bottomRadius && e.radius <= a.topRadius &&
    (InColumn(e.pos, a) ==> e.pos.y != a.height) &&
    !OnGoalPostAxis(e.pos, a)
  }

  function PositivePart(v: real): (r: real)
    ensures 0.0 <= r && v <= r && (0.0 < v ==> r == v)
  {
    if v > 0.0 then v else 0.0
  }

  /**
   * The two flat floor regions: between the side walls' bottom edges, below
   * the height where their blends start (lines 157-168) and in front of a goal, short of the end walls' bottom
   * edges (lines 304-315).
   */
  predicate FlatFloor(p: Vec3, a: Arena)
  {
    (Abs(p.z) <= a.depth - a.cornerRadius && a.width - a.topRadius < Abs(p.x) < a.width - a.bottomRadius &&
     p.y < a.bottomRadius && a.topRadius + a.bottomRadius <= a.height * 2.0) ||
    (a.depth - a.cornerRadius < Abs(p.z) < a.depth - a.bottomRadius && Abs(p.x) < a.width - a.cornerRadius &&
     p.y < a.goalHeight + a.goalSideRadius)
  }

  lemma AxisUnit(sqrt: real -> real, s: real)
    requires IsSqrt(sqrt) && (s == 1.0 || s == -1.0)
    ensures Vec3(s, 0.0, 0.0).Len(sqrt) == 1.0
    ensures Vec3(0.0, s, 0.0).Len(sqrt) == 1.0
    ensures Vec3(0.0, 0.0, s).Len(sqrt) == 1.0
  {
    SqrtUnique(sqrt, 1.0, 1.0);
  }

  lemma UpUnit(sqrt: real -> real)
    requires IsSqrt(sqrt)
    ensures Up.Len(sqrt) == 1.0 && Down.Len(sqrt) == 1.0
  {
    AxisUnit(sqrt, 1.0);
    AxisUnit(sqrt, -1.0);
  }

  lemma NonzeroLen(v: Vec3, sqrt: real -> real)
    requires IsSqrt(sqrt) && v != Zero3
    ensures v.Len(sqrt) != 0.0
  {
    if v.Len(sqrt) == 0.0 {
      ZeroLen3(v, sqrt);
    }
  }

  /** A flat leaf: the fixed normal `hit` if the depth is positive, otherwise depth 0 and whatever the code left in the normal. */
  function Flat(hit: Vec3, depth: real, miss: Vec3, ghost sqrt: real -> real): (t: TouchInfo)
    requires IsSqrt(sqrt) && hit.Len(sqrt) == 1.0
    ensures 0.0 <= t.depth && (0.0 < t.depth ==> t.normal.Len(sqrt) == 1.0)
    ensures 0.0 < depth ==> t == TouchInfo(hit, depth)
    ensures depth <= 0.0 ==> t == TouchInfo(miss, 0.0)
  {
    if depth > 0.0 then TouchInfo(hit, depth) else TouchInfo(miss, 0.0)
  }

  /**
   * A rounded-edge leaf seen from inside the arena: `offset` runs from the
   * blend's centre line to the entity, which penetrates when it is farther
   * than `blend - radius` from that line.
   */
  function RoundedEdge(offset: Vec3, radius: real, blend: real, sqrt: real -> real): (t: TouchInfo)
    requires IsSqrt(sqrt) && radius <= blend
    ensures 0.0 <= t.depth && (0.0 < t.depth ==> t.normal.Len(sqrt) == 1.0)
    ensures t.depth == if offset.Len(sqrt) + radius - blend > 0.0 then offset.Len(sqrt) + radius - blend else 0.0
  {
    var depth := offset.Len(sqrt) + radius - blend;
    if depth > 0.0 then TouchInfo(offset.Normal(sqrt), depth) else TouchInfo(offset, 0.0)
  }

  /**
   * A seam leaf seen from outside a convex rounded edge (the goal mouth):
   * the entity penetrates when it is nearer than `radius + blend` to the
   * seam's centre line.
   */
  function RoundedSeam(offset: Vec3, radius: real, blend: real, sqrt: real -> real): (t: TouchInfo)
    requires IsSqrt(sqrt) && offset != Zero3
    ensures 0.0 <= t.depth && (0.0 < t.depth ==> t.normal.Len(sqrt) == 1.0)
    ensures t.depth == if radius + blend - offset.Len(sqrt) > 0.0 then radius + blend - offset.Len(sqrt) else 0.0
  {
    NonzeroLen(offset, sqrt);
    var depth := radius + blend - offset.Len(sqrt);
    if depth > 0.0 then TouchInfo(offset.Normal(sqrt), depth) else TouchInfo(offset, 0.0)
  }

  /** Lines 116-124: floor or ceiling, whichever is nearer; the normal is set even when the depth is not kept. */
  function ColumnLeaf(e: Entity, a: Arena, ghost sqrt: real -> real): (t: TouchInfo)
    requires IsSqrt(sqrt) && e.pos.y != a.height
    ensures 0.0 <= t.depth && (0.0 < t.depth ==> t.normal.Len(sqrt) == 1.0)
  {
    var ny := e.pos.y - a.height;
    var depth := Abs(ny) + e.radius - a.height;
    AxisUnit(sqrt, Sign(ny));
    TouchInfo(Vec3(0.0, Sign(ny), 0.0), if depth > 0.0 then depth else 0.0)
  }

  /** Lines 186-188: the horizontal offset from the corner's axis, which is nonzero because the entity is past `depth - corner_radius` in z. */
  function CornerOffset(p: Vec3, a: Arena): (flat: Vec3)
    requires ArenaValid(a)
    requires a.depth - a.cornerRadius < Abs(p.z) && a.width - a.cornerRadius <= Abs(p.x)
    ensures flat.y == 0.0 && flat.z != 0.0
  {
    Vec3((Abs(p.x) - (a.width - a.cornerRadius)) * Sign(p.x), 0.0, (Abs(p.z) - (a.depth - a.cornerRadius)) * Sign(p.z))
  }

  /** Lines 190-203: the vertical corner cylinder, whose unit normal is the horizontal offset divided by its length. */
  function CornerCylinder(flat: Vec3, r: real, a: Arena, sqrt: real -> real): (t: TouchInfo)
    requires IsSqrt(sqrt) && flat.y == 0.0 && flat.z != 0.0
    ensures 0.0 <= t.depth && (0.0 < t.depth ==> t.normal.Len(sqrt) == 1.0)
  {
    NonzeroLen(flat, sqrt);
    var l := flat.Len(sqrt);
    var depth := l + r - a.cornerRadius;
    if depth > 0.0 then TouchInfo(flat.Normal(sqrt), depth) else TouchInfo(flat.(y := l), 0.0)
  }

  /**
   * Lines 205-260: above (or below) the cylinder, the flat ceiling (floor)
   * over the corner's core, otherwise the rounded edge where the corner
   * meets it; `blend` is the top (bottom) radius, `rim` the height of the
   * blend's centre line and `flatDepth` the ceiling's (floor's) depth.
   */
  function CornerCap(flat: Vec3, p: Vec3, r: real, a: Arena, blend: real, rim: real, hit: Vec3, flatDepth: real, sqrt: real -> real): (t: TouchInfo)
    requires IsSqrt(sqrt) && flat.y == 0.0 && flat.z != 0.0
    requires r <= blend && hit.Len(sqrt) == 1.0
    ensures 0.0 <= t.depth && (0.0 < t.depth ==> t.normal.Len(sqrt) == 1.0)
  {
    NonzeroLen(flat, sqrt);
    var l := flat.Len(sqrt);
    if l < a.cornerRadius - blend then
      Flat(hit, flatDepth, flat.(y := l), sqrt)
    else
      var m := flat.Normal(sqrt).Scale(l - (a.cornerRadius - blend));
      RoundedEdge(m.(y := p.y - rim), r, blend, sqrt)
  }

  /** Lines 183-261: the four vertical corner blends, with their ceiling, floor and rounded top and bottom. */
  function CornerLeaf(e: Entity, a: Arena, sqrt: real -> real): (t: TouchInfo)
    requires IsSqrt(sqrt) && ProbeDefined(e, a)
    requires a.depth - a.cornerRadius < Abs(e.pos.z) && a.width - a.cornerRadius <= Abs(e.pos.x)
    ensures 0.0 <= t.depth && (0.0 < t.depth ==> t.normal.Len(sqrt) == 1.0)
  {
    var p, r := e.pos, e.radius;
    var sizeY := a.height - (a.topRadius + a.bottomRadius) / 2.0;
    var posY := p.y - (sizeY + a.bottomRadius);
    var flat := CornerOffset(p, a);
    if Abs(posY) <= sizeY then
      CornerCylinder(flat, r, a, sqrt)
    else if posY > 0.0 then
      AxisUnit(sqrt, 1.0);
      CornerCap(flat, p, r, a, a.topRadius, a.height * 2.0 - a.topRadius, Up, p.y + r - a.height * 2.0, sqrt)
    else
      AxisUnit(sqrt, -1.0);
      CornerCap(flat, p, r, a, a.bottomRadius, a.bottomRadius, Down, r - p.y, sqrt)
  }

  /** Lines 317-336: the goal floor and the rounded top edge of the goal mouth. */
  function GoalMouthLeaf(e: Entity, a: Arena, sqrt: real -> real): (t: TouchInfo)
    requires IsSqrt(sqrt) && ProbeDefined(e, a)
    requires a.depth - a.cornerRadius < Abs(e.pos.z) && e.pos.y < a.goalHeight + a.goalSideRadius
    ensures 0.0 <= t.depth && (0.0 < t.depth ==> t.normal.Len(sqrt) == 1.0)
  {
    var p, r := e.pos, e.radius;
    AxisUnit(sqrt, -1.0);
    if r - p.y > 0.0 then
      TouchInfo(Down, r - p.y)
    else
      var n := Vec3(0.0, (a.goalHeight + a.goalSideRadius) - p.y, ((a.depth + a.goalSideRadius) - Abs(p.z)) * Sign(p.z));
      RoundedSeam(n, r, a.goalSideRadius, sqrt)
  }

  /** The goal's top seam, lines 385-392: the offset that line 393 measures. */
  function GoalTopSeamOffset(p: Vec3, a: Arena, sqrt: real -> real): (m: Vec3)
    requires IsSqrt(sqrt) && a.goalHeight - a.goalTopRadius < p.y < a.goalHeight + a.goalSideRadius
    ensures m != Zero3
  {
    var q := Vec3(0.0, p.y - (a.goalHeight - a.goalTopRadius), p.z - (a.depth + a.goalSideRadius));
    NonzeroLen(q, sqrt);
    var q' := q.Normal(sqrt).Scale(a.goalTopRadius + a.goalSideRadius);
    var m := Vec3(a.depth + a.goalSideRadius, q'.y + (a.goalHeight - a.goalTopRadius), a.depth + a.goalSideRadius).Sub(p);
    GoalTopSeamNonzero(p, a, sqrt);
    m
  }

  lemma GoalTopSeamNonzero(p: Vec3, a: Arena, sqrt: real -> real)
    requires IsSqrt(sqrt) && a.goalHeight - a.goalTopRadius < p.y < a.goalHeight + a.goalSideRadius
    ensures var q := Vec3(0.0, p.y - (a.goalHeight - a.goalTopRadius), p.z - (a.depth + a.goalSideRadius));
      q.Len(sqrt) != 0.0 &&
      Vec3(a.depth + a.goalSideRadius,
           q.Normal(sqrt).Scale(a.goalTopRadius + a.goalSideRadius).y + (a.goalHeight - a.goalTopRadius),
           a.depth + a.goalSideRadius).Sub(p) != Zero3
  {
    var q := Vec3(0.0, p.y - (a.goalHeight - a.goalTopRadius), p.z - (a.depth + a.goalSideRadius));
    NonzeroLen(q, sqrt);
    if p.z == a.depth + a.goalSideRadius {
      // q points straight up, so the scaled unit vector reaches exactly goal_top_radius + goal_side_radius above its base
      SqrtUnique(sqrt, q.SqLen(), q.y);
      DivSelf(q.y);
    }
  }

  /** Lines 340-342: the horizontal offset from the goal post's axis, nonzero off that axis. */
  function GoalPostOffset(p: Vec3, a: Arena): (n: Vec3)
    requires ArenaValid(a) && a.depth - a.cornerRadius < Abs(p.z)
    requires (a.goalWidth - a.goalTopRadius) / 2.0 < Abs(p.x)
    ensures n.y == 0.0
    ensures !OnGoalPostAxis(p, a) ==> n != Zero3
  {
    Vec3(((a.goalWidth + a.goalSideRadius) / 2.0 - Abs(p.x)) * Sign(p.x), 0.0, ((a.depth + a.goalSideRadius) - Abs(p.z)) * Sign(p.z))
  }

  /** Lines 344-368: the goal floor beside the post; line 351 reports the normal (0, 1, 0) on this floor. */
  function GoalFloorCorner(n: Vec3, p: Vec3, r: real, a: Arena, sqrt: real -> real): (t: TouchInfo)
    requires IsSqrt(sqrt) && 0.0 < r <= a.bottomRadius
    ensures 0.0 <= t.depth && (0.0 < t.depth ==> t.normal.Len(sqrt) == 1.0)
  {
    if n.Len(sqrt) > a.bottomRadius then
      UpUnit(sqrt);
      Flat(Up, r - p.y, n, sqrt)
    else
      RoundedEdge(p.Sub(Vec3(n.x, a.bottomRadius, n.z)), r, a.bottomRadius, sqrt)
  }

  /** Lines 339-402: the goal-post seams, the goal floor beside them and the top seam of the goal. */
  function GoalSeamLeaf(e: Entity, a: Arena, sqrt: real -> real): (t: TouchInfo)
    requires IsSqrt(sqrt) && ProbeDefined(e, a)
    requires a.depth - a.cornerRadius < Abs(e.pos.z) && e.pos.y < a.goalHeight + a.goalSideRadius
    requires (a.goalWidth - a.goalTopRadius) / 2.0 < Abs(e.pos.x)
    ensures 0.0 <= t.depth && (0.0 < t.depth ==> t.normal.Len(sqrt) == 1.0)
  {
    var p, r := e.pos, e.radius;
    var n := GoalPostOffset(p, a);
    if p.y < a.bottomRadius then
      GoalFloorCorner(n, p, r, a, sqrt)
    else if p.y <= a.goalHeight - a.goalTopRadius then
      RoundedSeam(n, r, a.goalSideRadius, sqrt)
    else
      RoundedSeam(GoalTopSeamOffset(p, a, sqrt), r, a.goalSideRadius, sqrt)
  }

  /** Lines 112-181: the central column, the flat side walls and their rounded top and bottom edges, and the floor between. */
  function SideRegion(e: Entity, a: Arena, sqrt: real -> real): (t: TouchInfo)
    requires IsSqrt(sqrt) && ProbeDefined(e, a)
    requires Abs(e.pos.z) <= a.depth - a.cornerRadius
    ensures 0.0 <= t.depth && (0.0 < t.depth ==> t.normal.Len(sqrt) == 1.0)
  {
    var p, r := e.pos, e.radius;
    var sizeY := a.height - (a.topRadius + a.bottomRadius) / 2.0;
    var posY := p.y - (sizeY + a.bottomRadius);
    if Abs(p.x) <= a.width - a.topRadius then
      ColumnLeaf(e, a, sqrt)
    else if Abs(posY) <= sizeY then
      // lines 129-140: the flat side wall
      AxisUnit(sqrt, Sign(p.x));
      Flat(Vec3(Sign(p.x), 0.0, 0.0), Abs(p.x) + r - a.width, Zero3, sqrt)
    else if posY > 0.0 then
      // lines 142-155: the rounded top edge of the side wall
      RoundedEdge(Vec3((Abs(p.x) - (a.width - a.topRadius)) * Sign(p.x), p.y - (a.height * 2.0 - a.topRadius), 0.0), r, a.topRadius, sqrt)
    else if Abs(p.x) < a.width - a.bottomRadius then
      // lines 157-168: the floor
      UpUnit(sqrt);
      Flat(Down, r - p.y, Zero3, sqrt)
    else
      // lines 170-180: the rounded bottom edge of the side wall
      RoundedEdge(Vec3((Abs(p.x) - (a.width - a.bottomRadius)) * Sign(p.x), p.y - a.bottomRadius, 0.0), r, a.bottomRadius, sqrt)
  }

  /** Lines 265-276: the flat end wall above the goal, whose normal points along z. */
  function EndWall(p: Vec3, r: real, a: Arena, sqrt: real -> real): (t: TouchInfo)
    requires IsSqrt(sqrt) && p.z != 0.0
    ensures 0.0 <= t.depth && (0.0 < t.depth ==> t.normal.Len(sqrt) == 1.0)
  {
    AxisUnit(sqrt, Sign(p.z));
    Flat(Vec3(0.0, 0.0, Sign(p.z)), Abs(p.z) + r - a.depth, Zero3, sqrt)
  }

  /** Lines 263-302: the end wall above the goal, the ceiling over it and the rounded edge between them. */
  function EndWallRegion(e: Entity, a: Arena, sqrt: real -> real): (t: TouchInfo)
    requires IsSqrt(sqrt) && ArenaValid(a) && e.radius <= a.topRadius
    requires a.depth - a.cornerRadius < Abs(e.pos.z)
    ensures 0.0 <= t.depth && (0.0 < t.depth ==> t.normal.Len(sqrt) == 1.0)
  {
    var p, r := e.pos, e.radius;
    if p.y <= a.height * 2.0 - a.topRadius then
      EndWall(p, r, a, sqrt)
    else if Abs(p.z) <= a.width - a.topRadius then
      // lines 278-289: the ceiling, compared with `width - top_radius`
      UpUnit(sqrt);
      Flat(Up, p.y + r - a.height * 2.0, Zero3, sqrt)
    else
      // lines 291-301: the rounded top edge of the end wall
      RoundedEdge(Vec3(0.0, p.y - (a.height * 2.0 - a.topRadius), (Abs(p.z) - (a.depth - a.topRadius)) * Sign(p.z)), r, a.topRadius, sqrt)
  }

  /** Lines 304-404: in front of the goal, the floor, the goal mouth and the goal-post seams. */
  function GoalRegion(e: Entity, a: Arena, sqrt: real -> real): (t: TouchInfo)
    requires IsSqrt(sqrt) && ProbeDefined(e, a)
    requires a.depth - a.cornerRadius < Abs(e.pos.z) && e.pos.y < a.goalHeight + a.goalSideRadius
    ensures 0.0 <= t.depth && (0.0 < t.depth ==> t.normal.Len(sqrt) == 1.0)
  {
    var p, r := e.pos, e.radius;
    if Abs(p.z) < a.depth - a.bottomRadius then
      // lines 304-315: the floor in front of the goal
      UpUnit(sqrt);
      Flat(Down, r - p.y, Zero3, sqrt)
    else if Abs(p.x) <= (a.goalWidth - a.goalTopRadius) / 2.0 then
      GoalMouthLeaf(e, a, sqrt)
    else if p.x <= a.depth + a.goalSideRadius then
      // line 339 compares the signed x with a depth-based bound
      GoalSeamLeaf(e, a, sqrt)
    else
      TouchInfo(Zero3, 0.0)
  }

  /** `CheckArenaCollision(e)` on the half-extent arena `a`. */
  function CheckArenaCollision(e: Entity, a: Arena, sqrt: real -> real): (t: TouchInfo)
    requires IsSqrt(sqrt) && ProbeDefined(e, a)
    ensures 0.0 <= t.depth
    ensures 0.0 < t.depth ==> t.normal.Len(sqrt) == 1.0
  {
    var p := e.pos;
    if Abs(p.z) <= a.depth - a.cornerRadius then
      SideRegion(e, a, sqrt)
    else if Abs(p.x) >= a.width - a.cornerRadius then
      CornerLeaf(e, a, sqrt)
    else if p.y >= a.goalHeight + a.goalSideRadius then
      EndWallRegion(e, a, sqrt)
    else
      GoalRegion(e, a, sqrt)
  }
}

module CollisionRegions {
  import opened Linal
  import opened World
  import opened Collision

  /** Lines 112-125: in the central column the probe measures the nearer of floor and ceiling and sets the normal even at depth 0. */
  lemma ColumnProbe(e: Entity, a: Arena, sqrt: real -> real)
    requires IsSqrt(sqrt) && ProbeDefined(e, a) && InColumn(e.pos, a)
    ensures var t := CheckArenaCollision(e, a, sqrt);
      t.normal == Vec3(0.0, Sign(e.pos.y - a.height), 0.0) &&
      t.depth == PositivePart(Abs(e.pos.y - a.height) + e.radius - a.height)
    ensures e.radius <= e.pos.y <= a.height * 2.0 - e.radius ==> CheckArenaCollision(e, a, sqrt).depth == 0.0
  {
  }

  /** Lines 126-140: in the band between the side walls' edge blends the wall is a plane at `|x| == width`. */
  lemma SideWallProbe(e: Entity, a: Arena, sqrt: real -> real)
    requires IsSqrt(sqrt) && ProbeDefined(e, a)
    requires Abs(e.pos.z) <= a.depth - a.cornerRadius && a.width - a.topRadius < Abs(e.pos.x)
    requires a.bottomRadius <= e.pos.y <= a.height * 2.0 - a.topRadius
    ensures var t := CheckArenaCollision(e, a, sqrt);
      t.depth == PositivePart(Abs(e.pos.x) + e.radius - a.width) &&
      (0.0 < t.depth ==> t.normal == Vec3(Sign(e.pos.x), 0.0, 0.0))
  {
  }

  /** Lines 157-168 and 304-315: on both flat floors the floor is the plane `y == 0` with the downward normal. */
  lemma FloorProbe(e: Entity, a: Arena, sqrt: real -> real)
    requires IsSqrt(sqrt) && ProbeDefined(e, a) && FlatFloor(e.pos, a)
    ensures var t := CheckArenaCollision(e, a, sqrt);
      t.depth == PositivePart(e.radius - e.pos.y) && (0.0 < t.depth ==> t.normal == Down)
  {
  }

  /**
   * Line 351: on the floor beside a goal post, away from the post's bottom
   * blend, the probe reports the normal (0, 1, 0) where every other floor
   * leaf reports (0, -1, 0), so pushing the entity out along it moves it
   * further down, below the floor.
   */
  lemma GoalFloorNormalUp(e: Entity, a: Arena, sqrt: real -> real)
    requires IsSqrt(sqrt) && ProbeDefined(e, a)
    requires a.depth - a.bottomRadius <= Abs(e.pos.z) && a.depth - a.cornerRadius < Abs(e.pos.z)
    requires (a.goalWidth - a.goalTopRadius) / 2.0 < Abs(e.pos.x) < a.width - a.cornerRadius
    requires e.pos.x <= a.depth + a.goalSideRadius
    requires e.pos.y < e.radius && e.pos.y < a.goalHeight + a.goalSideRadius
    requires a.bottomRadius < GoalPostOffset(e.pos, a).Len(sqrt)
    ensures CheckArenaCollision(e, a, sqrt) == TouchInfo(Up, e.radius - e.pos.y)
    ensures e.pos.Sub(Up.Scale(e.radius - e.pos.y)).y < e.pos.y
  {
  }
}
