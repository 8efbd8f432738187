/**
 * The data the physics kernel of MyStrategy.cpp works on: the arena (kept as
 * half-extents, as `init` stores it), the game rules it reads, the entity
 * record shared by the ball and the robots, and the probe's result.
 */
module World {
  import opened Linal

  /**
   * `model::Arena`.  Inside the strategy `width`, `height` and `depth` are
   * half of the match values (see Halved); the goal dimensions and the blend
   * radii are kept as given.
   */
  datatype Arena = Arena(
    width: real, height: real, depth: real,
    bottomRadius: real, topRadius: real, cornerRadius: real,
    goalWidth: real, goalHeight: real, goalDepth: real,
    goalTopRadius: real, goalSideRadius: real)

  /** What `init` does to the arena it copies: halve width, height and depth, nothing else. */
  function Halved(a: Arena): (h: Arena)
    ensures h.width * 2.0 == a.width && h.height * 2.0 == a.height && h.depth * 2.0 == a.depth
    ensures h.(width := a.width, height := a.height, depth := a.depth) == a
  {
    a.(width := a.width / 2.0, height := a.height / 2.0, depth := a.depth / 2.0)
  }

  /**
   * The shape assumptions under which the collision probe never divides by
   * zero: every blend radius is positive and smaller than the extent it
   * rounds off.
   */
  predicate ArenaValid(a: Arena)
  {
    0.0 < a.bottomRadius < a.cornerRadius &&
    0.0 < a.topRadius < a.cornerRadius &&
    a.cornerRadius < a.width &&
    a.cornerRadius <= a.depth &&
    0.0 < a.goalTopRadius <= a.goalWidth &&
    0.0 < a.goalSideRadius &&
    0.0 < a.height
  }

  /** The fields of `model::Rules` the strategy reads. */
  datatype Rules = Rules(
    arena: Arena,
    gravity: real,
    maxEntitySpeed: real,
    ticksPerSecond: nat,
    microticksPerTick: nat,
    ballRadius: real, ballMass: real, ballArenaE: real,
    robotRadius: real, robotMass: real, robotArenaE: real,
    robotMaxGroundSpeed: real,
    maxHitE: real)

  /** `struct Entity`: the kinematic state shared by the ball and the robots. */
  datatype Entity = Entity(
    pos: Vec3, vel: Vec3,
    radius: real, mass: real, arenaE: real,
    touch: bool)

  /** A default-constructed `Entity`. */
  const NewEntity: Entity := Entity(Zero3, Zero3, 0.0, 0.0, 0.0, false)

  /** `struct TouchInfo`: the probe's result. */
  datatype TouchInfo = TouchInfo(normal: Vec3, depth: real)

  function Abs(v: real): (r: real)
    ensures 0.0 <= r && (r == v || r == -v)
  {
    if v < 0.0 then -v else v
  }

  /** `sign(v) = v / abs(v)`, which divides by zero at `v == 0`. */
  function Sign(v: real): (r: real)
    requires v != 0.0
    ensures r == if v < 0.0 then -1.0 else 1.0
  {
    SignValue(v);
    v / Abs(v)
  }

  lemma SignValue(v: real)
    requires v != 0.0
    ensures v / Abs(v) == if v < 0.0 then -1.0 else 1.0
  {
    if v < 0.0 {
      assert Abs(v) == -v;
      DivNegated(v);
    } else {
      assert Abs(v) == v;
      DivSelf(v);
    }
  }

  lemma DivNegated(v: real)
    requires v < 0.0
    ensures v / -v == -1.0
  {
  }
}
