/**
 * The state `MyStrategy` keeps between calls (the statics of MyStrategy.cpp
 * and the members `m_bots`, `m_ready`) and the three things done to it:
 * `BallTick` advances the ball by one tick, `init` sets the state up from the
 * rules and the robots of the first tick, and `act` refreshes it once per
 * tick by simulating the ball forward until every robot of ours has had it
 * within reach.
 */
module Strategy {
  import opened Linal
  import opened World
  import opened Collision
  import opened Integrator
  import opened Team

  /** The number of ticks `act` simulates at most. */
  const Horizon: nat := 1000

  /** The fields of `model::Ball` that `act` reads. */
  datatype Ball = Ball(x: real, y: real, z: real, velocityX: real, velocityY: real, velocityZ: real)

  /** The ball of the world after `act` has copied position and velocity from `b` into `e`. */
  function Observed(e: Entity, b: Ball): (o: Entity)
    ensures o.pos == Vec3(b.x, b.y, b.z) && o.vel == Vec3(b.velocityX, b.velocityY, b.velocityZ)
    ensures o.radius == e.radius && o.mass == e.mass && o.arenaE == e.arenaE && o.touch == e.touch
  {
    e.(pos := Vec3(b.x, b.y, b.z), vel := Vec3(b.velocityX, b.velocityY, b.velocityZ))
  }

  /** The world slot of robot `r` after `act` has copied its position and velocity into `e`. */
  function Tracked(e: Entity, r: Robot): (o: Entity)
    ensures o.pos == RobotPos(r) && o.vel == Vec3(r.velocityX, r.velocityY, r.velocityZ)
    ensures o.radius == e.radius && o.mass == e.mass && o.arenaE == e.arenaE && o.touch == e.touch
  {
    e.(pos := RobotPos(r), vel := Vec3(r.velocityX, r.velocityY, r.velocityZ))
  }

  /** The world entity `init` pushes for every robot. */
  function RobotEntity(r: Rules): (e: Entity)
    ensures e.pos == Zero3 && e.vel == Zero3 && e.radius == 0.0 && !e.touch
    ensures e.mass == r.robotMass && e.arenaE == r.robotArenaE
  {
    NewEntity.(arenaE := r.robotArenaE, mass := r.robotMass)
  }

  /** `m_bots[keeper].role = Keeper`: the entry is created when absent. */
  function Crowned(bots: map<int, MyBot>, keeper: int): (m: map<int, MyBot>)
    ensures m.Keys == bots.Keys + {keeper}
    ensures m[keeper].role == Keeper
    ensures keeper in bots ==> m[keeper].index == bots[keeper].index && m[keeper].ready == bots[keeper].ready
    ensures forall id :: id in bots && id != keeper ==> m[id] == bots[id]
  {
    bots[keeper := (if keeper in bots then bots[keeper] else DefaultBot).(role := Keeper)]
  }

  /** The id `init` records as keeper for the choice `p` of the keeper loop. */
  function KeeperId(robots: seq<Robot>, p: (int, real)): int
    requires -1 <= p.0 < |robots|
  {
    if p.0 == -1 then -1 else robots[p.0].id
  }

  /** Every roster entry points into the world's robot slots. */
  ghost predicate IndicesValid(bots: map<int, MyBot>, world: seq<Entity>)
  {
    forall id :: id in bots ==> 0 <= bots[id].index < |world|
  }

  /** The roster entries whose readiness flag is set. */
  ghost function Flagged(bots: map<int, MyBot>): (f: set<int>)
    ensures f <= bots.Keys
  {
    set id | id in bots && bots[id].ready
  }

  /** Whether ball `b` is within reach of robot `id`: their centres are at most the two radii apart. */
  ghost predicate Reached(bots: map<int, MyBot>, world: seq<Entity>, id: int, b: Entity, rules: Rules, sqrt: real -> real)
    requires IsSqrt(sqrt) && id in bots && IndicesValid(bots, world)
  {
    world[bots[id].index].pos.Dist(b.pos, sqrt) <= rules.robotRadius + rules.ballRadius
  }

  /** Whether `BallTick` is defined at each of the first `n` ticks from `ball`. */
  predicate TicksDefined(ball: Entity, n: nat, rules: Rules, timestep: real, microstep: real, sqrt: real -> real)
    requires IsSqrt(sqrt) && 0.0 < rules.maxEntitySpeed
    decreases n, 0
  {
    n == 0 ||
    (TicksDefined(ball, n - 1, rules, timestep, microstep, sqrt) && NextDefined(ball, n - 1, rules, timestep, microstep, sqrt))
  }

  /** Whether `BallTick` is defined at the ball after `m` ticks. */
  predicate NextDefined(ball: Entity, m: nat, rules: Rules, timestep: real, microstep: real, sqrt: real -> real)
    requires IsSqrt(sqrt) && 0.0 < rules.maxEntitySpeed
    requires TicksDefined(ball, m, rules, timestep, microstep, sqrt)
    decreases m, 2
  {
    TickDefined(BallAt(ball, m, rules, timestep, microstep, sqrt), rules, timestep, microstep, sqrt)
  }

  /** The ball after `n` calls of `BallTick`. */
  function BallAt(ball: Entity, n: nat, rules: Rules, timestep: real, microstep: real, sqrt: real -> real): (b: Entity)
    requires IsSqrt(sqrt) && 0.0 < rules.maxEntitySpeed
    requires TicksDefined(ball, n, rules, timestep, microstep, sqrt)
    ensures b.radius == ball.radius && b.mass == ball.mass && b.arenaE == ball.arenaE && b.touch == ball.touch
    decreases n, 1
  {
    if n == 0 then ball else Next(ball, n - 1, rules, timestep, microstep, sqrt)
  }

  /** The ball after `m + 1` calls of `BallTick`: one more tick from the ball after `m`. */
  function Next(ball: Entity, m: nat, rules: Rules, timestep: real, microstep: real, sqrt: real -> real): (b: Entity)
    requires IsSqrt(sqrt) && 0.0 < rules.maxEntitySpeed
    requires TicksDefined(ball, m, rules, timestep, microstep, sqrt) && NextDefined(ball, m, rules, timestep, microstep, sqrt)
    ensures b.radius == ball.radius && b.mass == ball.mass && b.arenaE == ball.arenaE && b.touch == ball.touch
    decreases m, 3
  {
    BallTicked(BallAt(ball, m, rules, timestep, microstep, sqrt), rules, timestep, microstep, sqrt)
  }

  lemma {:induction false} TicksDefinedPrefix(ball: Entity, i: nat, n: nat, rules: Rules, timestep: real, microstep: real, sqrt: real -> real)
    requires IsSqrt(sqrt) && 0.0 < rules.maxEntitySpeed
    requires i <= n && TicksDefined(ball, n, rules, timestep, microstep, sqrt)
    ensures TicksDefined(ball, i, rules, timestep, microstep, sqrt)
  {
    if i < n {
      var m: nat := n - 1;
      TicksDefinedLast(ball, m, n, rules, timestep, microstep, sqrt);
      TicksDefinedPrefix(ball, i, m, rules, timestep, microstep, sqrt);
    }
  }

  lemma TicksDefinedLast(ball: Entity, m: nat, n: nat, rules: Rules, timestep: real, microstep: real, sqrt: real -> real)
    requires IsSqrt(sqrt) && 0.0 < rules.maxEntitySpeed
    requires n == m + 1 && TicksDefined(ball, n, rules, timestep, microstep, sqrt)
    ensures TicksDefined(ball, m, rules, timestep, microstep, sqrt)
  {
  }

  /** The balls after ticks `1..n` of the simulation started from `ball`. */
  ghost function Trajectory(ball: Entity, n: nat, rules: Rules, timestep: real, microstep: real, sqrt: real -> real): (tr: seq<Entity>)
    requires IsSqrt(sqrt) && 0.0 < rules.maxEntitySpeed
    requires TicksDefined(ball, n, rules, timestep, microstep, sqrt)
    ensures |tr| == n
  {
    if n == 0 then [] else Trajectory(ball, n - 1, rules, timestep, microstep, sqrt) + [BallAt(ball, n, rules, timestep, microstep, sqrt)]
  }

  /** The roster entries that have ball `b` within reach. */
  ghost function Reachers(bots: map<int, MyBot>, world: seq<Entity>, b: Entity, rules: Rules, sqrt: real -> real): (r: set<int>)
    requires IsSqrt(sqrt) && IndicesValid(bots, world)
    ensures r <= bots.Keys
  {
    set id | id in bots && Reached(bots, world, id, b, rules, sqrt)
  }

  /**
   * The robots of the roster that had the ball within reach at some point of
   * the trajectory `tr`: the flags `act` has set once it has simulated
   * `|tr|` ticks.
   */
  ghost function ReadyBy(bots: map<int, MyBot>, world: seq<Entity>, tr: seq<Entity>, rules: Rules, sqrt: real -> real): (r: set<int>)
    requires IsSqrt(sqrt) && IndicesValid(bots, world)
    ensures r <= bots.Keys
  {
    if tr == [] then {}
    else ReadyBy(bots, world, tr[..|tr| - 1], rules, sqrt) + Reachers(bots, world, tr[|tr| - 1], rules, sqrt)
  }

  /** A robot is ready after a trajectory exactly when the ball came within its reach at one of its points. */
  lemma {:induction false} ReadyByMeans(bots: map<int, MyBot>, world: seq<Entity>, tr: seq<Entity>, id: int, rules: Rules, sqrt: real -> real)
    requires IsSqrt(sqrt) && IndicesValid(bots, world)
    ensures id in ReadyBy(bots, world, tr, rules, sqrt) <==>
      id in bots && exists s :: 0 <= s < |tr| && Reached(bots, world, id, tr[s], rules, sqrt)
  {
    if tr != [] {
      var front := tr[..|tr| - 1];
      ReadyByMeans(bots, world, front, id, rules, sqrt);
      if id in bots && exists s :: 0 <= s < |tr| && Reached(bots, world, id, tr[s], rules, sqrt) {
        var s :| 0 <= s < |tr| && Reached(bots, world, id, tr[s], rules, sqrt);
        if s < |front| {
          assert front[s] == tr[s];
        }
      }
      if id in ReadyBy(bots, world, front, rules, sqrt) {
        var s :| 0 <= s < |front| && Reached(bots, world, id, front[s], rules, sqrt);
        assert tr[s] == front[s];
      }
    }
  }

  /** Readiness only grows: a robot ready after a prefix of the trajectory is ready after all of it. */
  lemma {:induction false} ReadyByGrows(bots: map<int, MyBot>, world: seq<Entity>, tr: seq<Entity>, k: nat, rules: Rules, sqrt: real -> real)
    requires IsSqrt(sqrt) && IndicesValid(bots, world) && k <= |tr|
    ensures ReadyBy(bots, world, tr[..k], rules, sqrt) <= ReadyBy(bots, world, tr, rules, sqrt)
  {
    if k < |tr| {
      var front := tr[..|tr| - 1];
      assert front[..k] == tr[..k];
      ReadyByGrows(bots, world, front, k, rules, sqrt);
    } else {
      assert tr[..k] == tr;
    }
  }

  /** Setting the flag of one unflagged entry adds exactly that id to the flagged ones. */
  lemma FlagOne(bots: map<int, MyBot>, id: int)
    requires id in bots && !bots[id].ready
    ensures id !in Flagged(bots)
    ensures Flagged(bots[id := bots[id].(ready := true)]) == Flagged(bots) + {id}
    ensures |Flagged(bots[id := bots[id].(ready := true)])| == |Flagged(bots)| + 1
  {
    var f := Flagged(bots);
    assert Flagged(bots[id := bots[id].(ready := true)]) == f + {id};
    assert |f + {id}| == |f| + 1;
  }

  /** A subset is the whole set exactly when it is as large: why `m_bots.size() == m_ready` means every robot is ready. */
  lemma SubsetFull(a: set<int>, b: set<int>)
    requires a <= b
    ensures |a| == |b| <==> a == b
  {
    assert b == a + (b - a) && a * (b - a) == {};
    if |a| == |b| {
      assert b - a == {};
    }
  }

  /** The two cases of Bounce, as the loop body of `BallTick` takes them. */
  lemma BounceCases(vel: Vec3, n: Vec3, e: real)
    ensures vel.Dot(n) > 0.0 ==> Bounce(vel, n, e) == vel.Sub(n.Scale((1.0 + e) * vel.Dot(n)))
    ensures vel.Dot(n) <= 0.0 ==> Bounce(vel, n, e) == vel
  {
  }

  /** Pass `i + 1` of the micro-step loop, for a loop whose `n` passes are all defined. */
  lemma MicroTicksNext(ball: Entity, i: nat, n: nat, h: real, rules: Rules, sqrt: real -> real)
    requires IsSqrt(sqrt) && 0.0 < rules.maxEntitySpeed
    requires i < n && MicroTicksDefined(ball, n, h, rules, sqrt)
    ensures MicroTicksDefined(ball, i, h, rules, sqrt)
    ensures ProbeDefined(Moved(MicroTicks(ball, i, h, rules, sqrt), h, rules, sqrt), rules.arena)
    ensures MicroTicksDefined(ball, i + 1, h, rules, sqrt)
    ensures MicroTicks(ball, i + 1, h, rules, sqrt) == MicroStep(MicroTicks(ball, i, h, rules, sqrt), h, rules, sqrt)
  {
    MicroTicksDefinedPrefix(ball, i + 1, n, h, rules, sqrt);
    MicroTicksDefinedLast(ball, i, i + 1, h, rules, sqrt);
    MicroTicksStep(ball, i, i + 1, h, rules, sqrt);
  }

  /** Tick `t + 1` of a simulation whose first `n` ticks are all defined. */
  lemma BallAtNext(ball: Entity, t: nat, n: nat, rules: Rules, timestep: real, microstep: real, sqrt: real -> real)
    requires IsSqrt(sqrt) && 0.0 < rules.maxEntitySpeed
    requires t < n && TicksDefined(ball, n, rules, timestep, microstep, sqrt)
    ensures TicksDefined(ball, t, rules, timestep, microstep, sqrt)
    ensures TickDefined(BallAt(ball, t, rules, timestep, microstep, sqrt), rules, timestep, microstep, sqrt)
    ensures TicksDefined(ball, t + 1, rules, timestep, microstep, sqrt)
    ensures BallAt(ball, t + 1, rules, timestep, microstep, sqrt) ==
      BallTicked(BallAt(ball, t, rules, timestep, microstep, sqrt), rules, timestep, microstep, sqrt)
  {
    TicksDefinedPrefix(ball, t + 1, n, rules, timestep, microstep, sqrt);
    assert BallAt(ball, t + 1, rules, timestep, microstep, sqrt) == Next(ball, t, rules, timestep, microstep, sqrt);
  }

  /** Each ball of a trajectory is one `BallTick` on from the one before it, the first from the starting ball. */
  lemma TrajectoryStep(ball: Entity, t: nat, n: nat, rules: Rules, timestep: real, microstep: real, sqrt: real -> real)
    requires IsSqrt(sqrt) && 0.0 < rules.maxEntitySpeed
    requires t < n && TicksDefined(ball, n, rules, timestep, microstep, sqrt)
    ensures var traj := Trajectory(ball, n, rules, timestep, microstep, sqrt);
      var prev := if t == 0 then ball else traj[t - 1];
      TickDefined(prev, rules, timestep, microstep, sqrt) && traj[t] == BallTicked(prev, rules, timestep, microstep, sqrt)
  {
    if t > 0 {
      TrajectoryAt(ball, t, n, rules, timestep, microstep, sqrt);
    }
    TrajectoryAt(ball, t + 1, n, rules, timestep, microstep, sqrt);
    BallAtNext(ball, t, n, rules, timestep, microstep, sqrt);
  }

  /** The first `k` balls of a trajectory are the trajectory of `k` ticks. */
  lemma {:induction false} TrajectoryPrefix(ball: Entity, k: nat, n: nat, rules: Rules, timestep: real, microstep: real, sqrt: real -> real)
    requires IsSqrt(sqrt) && 0.0 < rules.maxEntitySpeed
    requires k <= n && TicksDefined(ball, n, rules, timestep, microstep, sqrt)
    ensures TicksDefined(ball, k, rules, timestep, microstep, sqrt)
    ensures Trajectory(ball, n, rules, timestep, microstep, sqrt)[..k] == Trajectory(ball, k, rules, timestep, microstep, sqrt)
  {
    TicksDefinedPrefix(ball, k, n, rules, timestep, microstep, sqrt);
    if k < n {
      var m: nat := n - 1;
      TrajectoryDropLast(ball, m, n, rules, timestep, microstep, sqrt);
      TrajectoryPrefix(ball, k, m, rules, timestep, microstep, sqrt);
    }
  }

  /** Point `k - 1` of a trajectory is the ball after `k` ticks. */
  lemma TrajectoryAt(ball: Entity, k: nat, n: nat, rules: Rules, timestep: real, microstep: real, sqrt: real -> real)
    requires IsSqrt(sqrt) && 0.0 < rules.maxEntitySpeed
    requires 1 <= k <= n && TicksDefined(ball, n, rules, timestep, microstep, sqrt)
    ensures TicksDefined(ball, k, rules, timestep, microstep, sqrt)
    ensures Trajectory(ball, n, rules, timestep, microstep, sqrt)[k - 1] == BallAt(ball, k, rules, timestep, microstep, sqrt)
  {
    TrajectoryPrefix(ball, k, n, rules, timestep, microstep, sqrt);
    assert Trajectory(ball, n, rules, timestep, microstep, sqrt)[k - 1] == Trajectory(ball, n, rules, timestep, microstep, sqrt)[..k][k - 1];
  }

  lemma TrajectoryDropLast(ball: Entity, m: nat, n: nat, rules: Rules, timestep: real, microstep: real, sqrt: real -> real)
    requires IsSqrt(sqrt) && 0.0 < rules.maxEntitySpeed
    requires n == m + 1 && TicksDefined(ball, n, rules, timestep, microstep, sqrt)
    ensures TicksDefined(ball, m, rules, timestep, microstep, sqrt)
    ensures Trajectory(ball, n, rules, timestep, microstep, sqrt)[..m] == Trajectory(ball, m, rules, timestep, microstep, sqrt)
  {
    var front := Trajectory(ball, m, rules, timestep, microstep, sqrt);
    DropLast(front, BallAt(ball, n, rules, timestep, microstep, sqrt));
  }

  lemma SliceNext(s: seq<Entity>, i: nat)
    requires i < |s|
    ensures s[..i + 1] == s[..i] + [s[i]]
  {
  }

  lemma DropLast(s: seq<Entity>, x: Entity)
    ensures (s + [x])[..|s|] == s
  {
  }

  /** A set of ids is empty or has an element for the iteration over `m_bots` to visit. */
  lemma EmptyOrMember(s: set<int>)
    ensures s == {} || exists x :: x in s
  {
    if forall x :: x !in s {
      assert s == {};
    }
  }

  /** Two rosters with the same ids in the same slots have the same robots within reach of a ball. */
  lemma ReachersSameSlots(a: map<int, MyBot>, b: map<int, MyBot>, world: seq<Entity>, ball: Entity, rules: Rules, sqrt: real -> real)
    requires IsSqrt(sqrt) && IndicesValid(a, world)
    requires a.Keys == b.Keys && forall id :: id in a ==> a[id].index == b[id].index
    ensures IndicesValid(b, world)
    ensures Reachers(a, world, ball, rules, sqrt) == Reachers(b, world, ball, rules, sqrt)
  {
    forall id | id in a
      ensures Reached(a, world, id, ball, rules, sqrt) == Reached(b, world, id, ball, rules, sqrt)
    {
    }
  }

  /** One more ball of the trajectory readies the robots that have it within reach. */
  lemma ReadyByAppend(bots: map<int, MyBot>, world: seq<Entity>, tr: seq<Entity>, b: Entity, rules: Rules, sqrt: real -> real)
    requires IsSqrt(sqrt) && IndicesValid(bots, world)
    ensures ReadyBy(bots, world, tr + [b], rules, sqrt) == ReadyBy(bots, world, tr, rules, sqrt) + Reachers(bots, world, b, rules, sqrt)
  {
    DropLast(tr, b);
  }

  /** How the flagged set moves when the roster loop finishes with `id`. */
  lemma SetStep(flagged: set<int>, reach: set<int>, todo: set<int>, id: int)
    requires id in todo
    ensures id in reach ==> reach - (todo - {id}) == (reach - todo) + {id}
    ensures id !in reach ==> reach - (todo - {id}) == reach - todo
    ensures id in flagged ==> flagged + (reach - (todo - {id})) == flagged + (reach - todo)
  {
  }

  /**
   * The state of the roster loop of lines 530-545 with the ids `todo` still
   * to be visited, from the roster `bots0`: the entries visited so far are
   * flagged if they were already or if they are in `reach`, and `ready`
   * counts the flagged ones.
   */
  ghost predicate Visiting(bots: map<int, MyBot>, ready: int, bots0: map<int, MyBot>, reach: set<int>, todo: set<int>)
  {
    todo <= bots.Keys && bots.Keys == bots0.Keys &&
    (forall j :: j in bots ==> bots[j].index == bots0[j].index && bots[j].role == bots0[j].role) &&
    (forall j :: j in todo ==> bots[j] == bots0[j]) &&
    Flagged(bots) == Flagged(bots0) + (reach - todo) &&
    ready == |Flagged(bots)|
  }

  /** Once every id has been visited, the robots in `reach` have been added to the flagged ones. */
  lemma Visited(bots: map<int, MyBot>, ready: int, bots0: map<int, MyBot>, reach: set<int>)
    requires Visiting(bots, ready, bots0, reach, {})
    ensures bots.Keys == bots0.Keys
    ensures forall id :: id in bots ==> bots[id].index == bots0[id].index && bots[id].role == bots0[id].role
    ensures Flagged(bots) == Flagged(bots0) + reach
    ensures ready == |Flagged(bots)|
  {
    assert reach - {} == reach;
  }

  /** Readiness depends on the roster only through its ids and world slots. */
  lemma {:induction false} ReadyBySameSlots(a: map<int, MyBot>, b: map<int, MyBot>, world: seq<Entity>, tr: seq<Entity>, rules: Rules, sqrt: real -> real)
    requires IsSqrt(sqrt) && IndicesValid(a, world)
    requires a.Keys == b.Keys && forall id :: id in a ==> a[id].index == b[id].index
    ensures IndicesValid(b, world)
    ensures ReadyBy(a, world, tr, rules, sqrt) == ReadyBy(b, world, tr, rules, sqrt)
  {
    if tr != [] {
      ReadyBySameSlots(a, b, world, tr[..|tr| - 1], rules, sqrt);
      ReachersSameSlots(a, b, world, tr[|tr| - 1], rules, sqrt);
    }
  }

  /**
   * No non-empty proper prefix of the balls `tr` brought every robot of
   * `bots` within reach: the tick loop would have stopped before `tr` ended.
   */
  ghost predicate NeverFull(bots: map<int, MyBot>, world: seq<Entity>, tr: seq<Entity>, rules: Rules, sqrt: real -> real)
    requires IsSqrt(sqrt) && IndicesValid(bots, world)
    decreases |tr|
  {
    |tr| <= 1 ||
    (NeverFull(bots, world, tr[..|tr| - 1], rules, sqrt) && ReadyBy(bots, world, tr[..|tr| - 1], rules, sqrt) != bots.Keys)
  }

  /** NeverFull, stated prefix by prefix. */
  lemma {:induction false} NeverFullPrefixes(bots: map<int, MyBot>, world: seq<Entity>, tr: seq<Entity>, rules: Rules, sqrt: real -> real)
    requires IsSqrt(sqrt) && IndicesValid(bots, world)
    ensures NeverFull(bots, world, tr, rules, sqrt) <==>
      forall k :: 1 <= k < |tr| ==> ReadyBy(bots, world, tr[..k], rules, sqrt) != bots.Keys
    decreases |tr|
  {
    if |tr| > 1 {
      var p := tr[..|tr| - 1];
      NeverFullPrefixes(bots, world, p, rules, sqrt);
      forall k | 1 <= k < |p|
        ensures p[..k] == tr[..k]
      {
      }
      if NeverFull(bots, world, tr, rules, sqrt) {
        forall k | 1 <= k < |tr|
          ensures ReadyBy(bots, world, tr[..k], rules, sqrt) != bots.Keys
        {
          if k < |p| {
            assert ReadyBy(bots, world, p[..k], rules, sqrt) != bots.Keys;
          }
        }
      }
    }
  }

  /** Extending by one ball a trajectory that never readied the whole roster, and did not at its end either, keeps NeverFull. */
  lemma NotFullBefore(bots: map<int, MyBot>, world: seq<Entity>, tr: seq<Entity>, b: Entity, rules: Rules, sqrt: real -> real)
    requires IsSqrt(sqrt) && IndicesValid(bots, world)
    requires NeverFull(bots, world, tr, rules, sqrt)
    requires tr != [] ==> ReadyBy(bots, world, tr, rules, sqrt) != bots.Keys
    ensures NeverFull(bots, world, tr + [b], rules, sqrt)
  {
    assert (tr + [b])[..|tr|] == tr;
  }

  /** The prefixes of `traj[..n]` are the prefixes of `traj` below `n`. */
  lemma NotFullPrefix(bots: map<int, MyBot>, world: seq<Entity>, traj: seq<Entity>, n: nat, rules: Rules, sqrt: real -> real)
    requires IsSqrt(sqrt) && IndicesValid(bots, world) && n <= |traj|
    requires NeverFull(bots, world, traj[..n], rules, sqrt)
    ensures forall k :: 1 <= k < n ==> ReadyBy(bots, world, traj[..k], rules, sqrt) != bots.Keys
  {
    NeverFullPrefixes(bots, world, traj[..n], rules, sqrt);
    forall k | 1 <= k < n
      ensures ReadyBy(bots, world, traj[..k], rules, sqrt) != bots.Keys
    {
      assert traj[..n][..k] == traj[..k];
    }
  }


  /** `b` holds the robots of `a`, in the same world slots and with the same roles. */
  ghost predicate SameRoster(a: map<int, MyBot>, b: map<int, MyBot>)
  {
    b.Keys == a.Keys && forall id :: id in b ==> b[id].index == a[id].index && b[id].role == a[id].role
  }

  /** `w` is the world `v` with its first `|robots|` slots taken from the robots of the tick. */
  ghost predicate WorldTracked(v: seq<Entity>, w: seq<Entity>, robots: seq<Robot>)
  {
    |robots| <= |v| == |w| &&
    (forall i :: 0 <= i < |robots| ==> w[i] == Tracked(v[i], robots[i])) &&
    (forall i :: |robots| <= i < |w| ==> w[i] == v[i])
  }
  /**
   * The roster `bots` and the counter `ready` after the tick loop has looked
   * at the balls of `tr`, starting from the roster `bots0` with every flag
   * cleared: the same robots in the same slots of `world`, flagged exactly
   * when one of those balls came within their reach, and counted.
   */
  ghost predicate Tallied(bots0: map<int, MyBot>, world: seq<Entity>, rules: Rules, bots: map<int, MyBot>, ready: int, tr: seq<Entity>, sqrt: real -> real)
    requires IsSqrt(sqrt)
  {
    bots.Keys == bots0.Keys &&
    (forall id :: id in bots ==> bots[id].index == bots0[id].index && bots[id].role == bots0[id].role) &&
    IndicesValid(bots0, world) &&
    Flagged(bots) == ReadyBy(bots0, world, tr, rules, sqrt) &&
    ready == |Flagged(bots)|
  }

  /**
   * The roster after the tick loop of lines 523-548 has looked at the balls
   * `tr`, from `bots0`: tallied over them, `full` when every robot is ready,
   * and with no shorter trajectory that readied them all.
   */
  ghost predicate Standing(bots0: map<int, MyBot>, world: seq<Entity>, rules: Rules, bots: map<int, MyBot>, ready: int, tr: seq<Entity>, full: bool, sqrt: real -> real)
    requires IsSqrt(sqrt)
  {
    Tallied(bots0, world, rules, bots, ready, tr, sqrt) &&
    (full ==> 0 < |tr| && Flagged(bots) == bots0.Keys) &&
    (!full && 0 < |tr| ==> ReadyBy(bots0, world, tr, rules, sqrt) != bots0.Keys) &&
    NeverFull(bots0, world, tr, rules, sqrt)
  }

  class Strategy
  {
    /** `s_rules`, with the arena halved. */
    var rules: Rules
    var homePos: Vec3
    var goalPos: Vec3
    /** `Entity::s_entity_e`. */
    var entityE: real
    var timestep: real
    var microstep: real
    /** `s_world.ball` and `s_world.bots`. */
    var ball: Entity
    var worldBots: seq<Entity>
    /** `s_tick`: the last tick `act` refreshed the state for. */
    var tick: int
    /** `m_bots` and `m_ready`. */
    var bots: map<int, MyBot>
    var ready: int

    /** The statics as the program starts: no robots, no roster, no tick seen. */
    constructor ()
      ensures worldBots == [] && bots == map[] && ready == 0 && tick == -1 && ball == NewEntity
    {
      rules := Rules(Arena(0.0, 0.0, 0.0, 0.0, 0.0, 0.0, 0.0, 0.0, 0.0, 0.0, 0.0),
                     0.0, 0.0, 0, 0, 0.0, 0.0, 0.0, 0.0, 0.0, 0.0, 0.0, 0.0);
      homePos, goalPos, entityE := Zero3, Zero3, 0.0;
      timestep, microstep := 0.0, 0.0;
      ball, worldBots := NewEntity, [];
      tick, bots, ready := -1, map[], 0;
    }

    /**
     * `BallTick`, lines 410-447: a full step; if its probe reports
     * penetration, the step is redone from the old ball in
     * `MICROTICKS_PER_TICK` micro-steps, each pushing the ball out of the
     * arena surface and bouncing it.
     */
    method BallTick(sqrt: real -> real)
      requires IsSqrt(sqrt) && 0.0 < rules.maxEntitySpeed
      requires TickDefined(ball, rules, timestep, microstep, sqrt)
      modifies this`ball
      ensures ball == BallTicked(old(ball), rules, timestep, microstep, sqrt)
    {
      var b := Move(ball, timestep, rules, sqrt);
      var touch := CheckArenaCollision(b, rules.arena, sqrt);
      if touch.depth > 0.0 {
        if touch.depth > 10.0 {
          touch := touch.(depth := 0.0);
        }
        b := Substeps(ball, rules.microticksPerTick, microstep, rules, sqrt);
      }
      ball := b;
    }

    /** The micro-step loop of `BallTick`, lines 424-443: `n` passes from `ball`. */
    static method Substeps(ball: Entity, n: nat, h: real, rules: Rules, sqrt: real -> real) returns (b: Entity)
      requires IsSqrt(sqrt) && 0.0 < rules.maxEntitySpeed
      requires MicroTicksDefined(ball, n, h, rules, sqrt)
      ensures b == MicroTicks(ball, n, h, rules, sqrt)
    {
      b := ball;
      var i := 0;
      while i != n
        invariant 0 <= i <= n
        invariant MicroTicksDefined(ball, i, h, rules, sqrt)
        invariant b == MicroTicks(ball, i, h, rules, sqrt)
      {
        MicroTicksNext(ball, i, n, h, rules, sqrt);
        var next := MicroPass(b, h, rules, sqrt);
        b := next;
        i := i + 1;
      }
    }

    /**
     * One pass of the micro-step loop of `BallTick`, lines 427-442: move,
     * probe, and on penetration push the ball out and bounce it off the
     * surface when it is moving into it.
     */
    static method MicroPass(ball: Entity, h: real, rules: Rules, sqrt: real -> real) returns (b: Entity)
      requires IsSqrt(sqrt) && 0.0 < rules.maxEntitySpeed
      requires ProbeDefined(Moved(ball, h, rules, sqrt), rules.arena)
      ensures b == MicroStep(ball, h, rules, sqrt)
    {
      b := Move(ball, h, rules, sqrt);
      var touch := CheckArenaCollision(b, rules.arena, sqrt);
      if touch.depth > 0.0 {
        b := Resolve(b, touch);
      }
    }

    /**
     * The response to a penetration `touch`, lines 431-441: push the ball
     * out along the normal by the depth, then bounce it if it is moving into
     * the surface.
     */
    static method Resolve(ball: Entity, touch: TouchInfo) returns (b: Entity)
      ensures b == ball.(pos := ball.pos.Sub(touch.normal.Scale(touch.depth)), vel := Bounce(ball.vel, touch.normal, ball.arenaE))
    {
      b := ball.(pos := ball.pos.Sub(touch.normal.Scale(touch.depth)));
      var v := b.vel.Dot(touch.normal);
      if v > 0.0 {
        b := b.(vel := b.vel.Sub(touch.normal.Scale((1.0 + b.arenaE) * v)));
      }
      BounceCases(ball.vel, touch.normal, ball.arenaE);
    }

    /** Lines 508-512: clear the counter and every readiness flag of the roster. */
    method ResetReadiness()
      modifies this`bots, this`ready
      ensures ready == 0 && bots.Keys == old(bots).Keys
      ensures forall id :: id in bots ==> bots[id] == old(bots)[id].(ready := false)
      ensures Flagged(bots) == {}
    {
      ready := 0;
      var todo := bots.Keys;
      while todo != {}
        modifies this`bots
        invariant todo <= bots.Keys && bots.Keys == old(bots).Keys
        invariant forall id :: id in bots ==> bots[id] == if id in todo then old(bots)[id] else old(bots)[id].(ready := false)
        decreases |todo|
      {
        EmptyOrMember(todo);
        var id :| id in todo;
        bots := bots[id := bots[id].(ready := false)];
        todo := todo - {id};
      }
      assert forall id :: id !in Flagged(bots);
    }

    /**
     * Lines 514-521: copy the position and velocity of the `i`-th robot of
     * the tick into world slot `i`, and those of the ball into the world's
     * ball.
     */
    method Ingest(robots: seq<Robot>, b: Ball)
      requires |robots| <= |worldBots|
      modifies this`worldBots, this`ball
      ensures WorldTracked(old(worldBots), worldBots, robots)
      ensures ball == Observed(old(ball), b)
    {
      var i := 0;
      while i != |robots|
        modifies this`worldBots
        invariant 0 <= i <= |robots| && |worldBots| == |old(worldBots)|
        invariant forall j :: 0 <= j < i ==> worldBots[j] == Tracked(old(worldBots)[j], robots[j])
        invariant forall j :: i <= j < |worldBots| ==> worldBots[j] == old(worldBots)[j]
      {
        worldBots := worldBots[i := Tracked(worldBots[i], robots[i])];
        i := i + 1;
      }
      ball := Observed(ball, b);
    }

    /**
     * The roster loop of lines 530-545 over `roster` (`m_bots`) with the
     * counter `count` (`m_ready`): every robot not yet ready that has the
     * ball within reach becomes ready, and the counter counts it.
     */
    static method FlagReached(roster: map<int, MyBot>, count: int, world: seq<Entity>, ball: Entity, rules: Rules, sqrt: real -> real)
      returns (roster': map<int, MyBot>, count': int)
      requires IsSqrt(sqrt) && IndicesValid(roster, world)
      requires count == |Flagged(roster)|
      ensures roster'.Keys == roster.Keys
      ensures forall id :: id in roster' ==> roster'[id].index == roster[id].index && roster'[id].role == roster[id].role
      ensures Flagged(roster') == Flagged(roster) + Reachers(roster, world, ball, rules, sqrt)
      ensures count' == |Flagged(roster')|
    {
      ghost var reach := Reachers(roster, world, ball, rules, sqrt);
      roster', count' := roster, count;
      var todo := roster.Keys;
      while todo != {}
        invariant Visiting(roster', count', roster, reach, todo)
        decreases |todo|
      {
        EmptyOrMember(todo);
        var id :| id in todo;
        roster', count' := FlagIfReached(roster', count', id, world, ball, rules, sqrt, roster, reach, todo);
        todo := todo - {id};
      }
      Visited(roster', count', roster, reach);
    }

    /**
     * One pass of the roster loop of lines 530-545, for the robot `id` of
     * `roster`, still to be looked at: skip it if ready, otherwise flag and
     * count it if the ball is within its reach.
     */
    static method FlagIfReached(roster: map<int, MyBot>, count: int, id: int, world: seq<Entity>, ball: Entity, rules: Rules, sqrt: real -> real,
                                ghost bots0: map<int, MyBot>, ghost reach: set<int>, ghost todo: set<int>)
      returns (roster': map<int, MyBot>, count': int)
      requires IsSqrt(sqrt) && IndicesValid(bots0, world)
      requires reach == Reachers(bots0, world, ball, rules, sqrt)
      requires id in todo && Visiting(roster, count, bots0, reach, todo)
      ensures Visiting(roster', count', bots0, reach, todo - {id})
    {
      roster', count' := roster, count;
      var bot := roster[id];
      if !bot.ready && world[bot.index].pos.Dist(ball.pos, sqrt) <= rules.robotRadius + rules.ballRadius {
        FlagOne(roster, id);
        roster' := roster[id := bot.(ready := true)];
        count' := count + 1;
        assert id in reach;
        SetStep(Flagged(bots0), reach, todo, id);
      } else {
        assert id in reach ==> id in Flagged(bots0);
        SetStep(Flagged(bots0), reach, todo, id);
      }
    }

    /**
     * The flagging half of one pass of the tick loop, lines 530-547: with the
     * ball just advanced to the next point of the trajectory, flag the robots
     * that have it within reach and report whether the whole roster is ready.
     */
    method FlagTick(sqrt: real -> real, ghost bots0: map<int, MyBot>, ghost tr: seq<Entity>) returns (full: bool)
      requires IsSqrt(sqrt) && Tallied(bots0, worldBots, rules, bots, ready, tr, sqrt)
      modifies this`bots, this`ready
      ensures Tallied(bots0, worldBots, rules, bots, ready, tr + [ball], sqrt)
      ensures full <==> Flagged(bots) == bots0.Keys
    {
      ReachersSameSlots(bots0, bots, worldBots, ball, rules, sqrt);
      bots, ready := FlagReached(bots, ready, worldBots, ball, rules, sqrt);
      full := |bots| == ready;
      SubsetFull(Flagged(bots), bots.Keys);
      ReadyByAppend(bots0, worldBots, tr, ball, rules, sqrt);
    }

    /**
     * The advancing half of one pass of the tick loop, line 525: the ball,
     * at point `t` of the trajectory `traj` of `Horizon` ticks from `ball0`,
     * moves on to the next.
     */
    method Advance(sqrt: real -> real, ghost ball0: Entity, ghost traj: seq<Entity>, ghost t: nat)
      requires IsSqrt(sqrt) && 0.0 < rules.maxEntitySpeed
      requires t < Horizon && TicksDefined(ball0, Horizon, rules, timestep, microstep, sqrt)
      requires traj == Trajectory(ball0, Horizon, rules, timestep, microstep, sqrt)
      requires ball == if t == 0 then ball0 else traj[t - 1]
      modifies this`ball
      ensures ball == traj[t]
    {
      TrajectoryStep(ball0, t, Horizon, rules, timestep, microstep, sqrt);
      BallTick(sqrt);
    }

    /**
     * Lines 505-550 of `act`: the first call for a new game tick clears the
     * readiness, takes in the robots and the ball of the tick, runs the tick
     * loop from that ball (Readiness) and remembers the tick; a further call
     * for the same tick changes nothing.  Either way the roster keeps its
     * robots, slots and roles and the counter counts its flags.
     */
    method Refresh(currentTick: int, robots: seq<Robot>, b: Ball, sqrt: real -> real)
      requires IsSqrt(sqrt) && 0.0 < rules.maxEntitySpeed
      requires |robots| <= |worldBots| && IndicesValid(bots, worldBots) && ready == |Flagged(bots)|
      requires currentTick != tick ==> TicksDefined(Observed(ball, b), Horizon, rules, timestep, microstep, sqrt)
      modifies this`ball, this`bots, this`ready, this`worldBots, this`tick
      ensures tick == currentTick && SameRoster(old(bots), bots) && ready == |Flagged(bots)|
      ensures old(tick) == currentTick ==>
        ball == old(ball) && bots == old(bots) && ready == old(ready) && worldBots == old(worldBots)
      ensures old(tick) != currentTick ==> WorldTracked(old(worldBots), worldBots, robots)
    {
      if currentTick != tick {
        var ticks := NewTick(robots, b, sqrt);
      }
      tick := currentTick;
    }

    /**
     * The body of the `current_tick != s_tick` branch of Refresh, lines
     * 507-548, returning how many ticks the loop simulated: fewer than
     * `Horizon` only when the whole roster became ready.
     */
    method NewTick(robots: seq<Robot>, b: Ball, sqrt: real -> real) returns (ticks: nat)
      requires IsSqrt(sqrt) && 0.0 < rules.maxEntitySpeed
      requires |robots| <= |worldBots| && IndicesValid(bots, worldBots)
      requires TicksDefined(Observed(ball, b), Horizon, rules, timestep, microstep, sqrt)
      modifies this`ball, this`bots, this`ready, this`worldBots
      ensures SameRoster(old(bots), bots) && ready == |Flagged(bots)|
      ensures WorldTracked(old(worldBots), worldBots, robots)
      ensures 1 <= ticks <= Horizon && (ticks < Horizon ==> Flagged(bots) == bots.Keys)
    {
      Observe(robots, b);
      ghost var traj;
      ticks, traj := Readiness(sqrt);
    }

    /**
     * Lines 507-521: clear the readiness, then take in the robots and the
     * ball of the tick.  The roster keeps its robots in their slots, now all
     * unflagged.
     */
    method Observe(robots: seq<Robot>, b: Ball)
      requires |robots| <= |worldBots| && IndicesValid(bots, worldBots)
      modifies this`ball, this`bots, this`ready, this`worldBots
      ensures ready == 0 && Flagged(bots) == {} && bots.Keys == old(bots).Keys
      ensures forall id :: id in bots ==> bots[id] == old(bots)[id].(ready := false)
      ensures IndicesValid(bots, worldBots) && ball == Observed(old(ball), b)
      ensures WorldTracked(old(worldBots), worldBots, robots)
    {
      ResetReadiness();
      Ingest(robots, b);
    }

    /**
     * The tick loop of lines 523-548: simulate the ball tick by tick, at most
     * `Horizon` ticks, flagging after each tick the robots that have it
     * within reach, and stop after the tick at which the whole roster is
     * ready.  Returns the number of ticks simulated; the ball is then the
     * one the simulation reaches after that many ticks.
     */
    method Readiness(sqrt: real -> real) returns (ticks: nat, ghost traj: seq<Entity>)
      requires IsSqrt(sqrt) && 0.0 < rules.maxEntitySpeed
      requires TicksDefined(ball, Horizon, rules, timestep, microstep, sqrt)
      requires IndicesValid(bots, worldBots) && ready == 0 && Flagged(bots) == {}
      modifies this`ball, this`bots, this`ready
      ensures traj == Trajectory(old(ball), Horizon, rules, timestep, microstep, sqrt)
      ensures 1 <= ticks <= Horizon && ball == traj[ticks - 1]
      ensures SameRoster(old(bots), bots)
      ensures Flagged(bots) == ReadyBy(old(bots), worldBots, traj[..ticks], rules, sqrt)
      ensures ready == |Flagged(bots)|
      ensures ticks < Horizon ==> Flagged(bots) == bots.Keys
      ensures forall k :: 1 <= k < ticks ==> ReadyBy(old(bots), worldBots, traj[..k], rules, sqrt) != bots.Keys
    {
      traj := Trajectory(ball, Horizon, rules, timestep, microstep, sqrt);
      ReadyBySameSlots(bots, bots, worldBots, [], rules, sqrt);
      var full;
      ticks, full := TickLoop(sqrt, ball, bots, traj);
      NotFullPrefix(old(bots), worldBots, traj, ticks, rules, sqrt);
    }

    /** The tick loop of lines 523-548 itself, over the trajectory `traj` of the ball `ball0`. */
    method TickLoop(sqrt: real -> real, ghost ball0: Entity, ghost bots0: map<int, MyBot>, ghost traj: seq<Entity>) returns (ticks: nat, full: bool)
      requires IsSqrt(sqrt) && 0.0 < rules.maxEntitySpeed
      requires TicksDefined(ball0, Horizon, rules, timestep, microstep, sqrt)
      requires traj == Trajectory(ball0, Horizon, rules, timestep, microstep, sqrt)
      requires ball == ball0 && Standing(bots0, worldBots, rules, bots, ready, [], false, sqrt)
      modifies this`ball, this`bots, this`ready
      ensures 1 <= ticks <= Horizon && ball == traj[ticks - 1]
      ensures Standing(bots0, worldBots, rules, bots, ready, traj[..ticks], full, sqrt) && (ticks < Horizon ==> full)
    {
      ticks := 0;
      full := false;
      assert traj[..ticks] == [];
      while ticks != Horizon && !full
        invariant ticks <= Horizon && ball == if ticks == 0 then ball0 else traj[ticks - 1]
        invariant Standing(bots0, worldBots, rules, bots, ready, traj[..ticks], full, sqrt)
      {
        full := TickStep(sqrt, ball0, bots0, traj, ticks);
        ticks := ticks + 1;
      }
    }

    /** One pass of the tick loop, lines 526-547: move the ball on by a tick, then flag the robots it reaches. */
    method TickStep(sqrt: real -> real, ghost ball0: Entity, ghost bots0: map<int, MyBot>, ghost traj: seq<Entity>, ghost t: nat)
      returns (full: bool)
      requires IsSqrt(sqrt) && 0.0 < rules.maxEntitySpeed
      requires t < Horizon && TicksDefined(ball0, Horizon, rules, timestep, microstep, sqrt)
      requires traj == Trajectory(ball0, Horizon, rules, timestep, microstep, sqrt)
      requires ball == (if t == 0 then ball0 else traj[t - 1]) && Standing(bots0, worldBots, rules, bots, ready, traj[..t], false, sqrt)
      modifies this`ball, this`bots, this`ready
      ensures ball == traj[t] && Standing(bots0, worldBots, rules, bots, ready, traj[..t + 1], full, sqrt)
    {
      ghost var tr := traj[..t];
      Advance(sqrt, ball0, traj, t);
      SliceNext(traj, t);
      full := FlagStep(sqrt, bots0, tr);
    }

    /**
     * The flagging half of one pass of the tick loop, lines 530-547, taken
     * while not every robot is ready: the ball has just moved on.
     */
    method FlagStep(sqrt: real -> real, ghost bots0: map<int, MyBot>, ghost tr: seq<Entity>) returns (full: bool)
      requires IsSqrt(sqrt) && Standing(bots0, worldBots, rules, bots, ready, tr, false, sqrt)
      modifies this`bots, this`ready
      ensures Standing(bots0, worldBots, rules, bots, ready, tr + [ball], full, sqrt)
    {
      NotFullBefore(bots0, worldBots, tr, ball, rules, sqrt);
      full := FlagTick(sqrt, bots0, tr);
    }

    /**
     * `init`, lines 457-494: store the rules with the arena halved, derive the
     * home and goal positions and the time steps, give the ball its
     * constants, push a world entity per robot, enter every teammate in the
     * roster with its world slot, and mark as keeper the teammate the loop
     * finds closest to home (the id `-1` when none is closer than the halved
     * depth, which then enters a roster entry of its own).
     */
    method Init(r: Rules, robots: seq<Robot>, sqrt: real -> real)
      requires IsSqrt(sqrt) && 0 < r.ticksPerSecond && 0 < r.microticksPerTick
      modifies this`rules, this`homePos, this`goalPos, this`entityE, this`timestep, this`microstep,
               this`ball, this`worldBots, this`bots
      ensures rules == r.(arena := Halved(r.arena))
      ensures homePos == Vec3(0.0, 0.0, -rules.arena.depth - r.arena.goalWidth / 2.0)
      ensures goalPos == Vec3(0.0, 0.0, rules.arena.depth + r.arena.goalDepth)
      ensures entityE == 0.0
      ensures timestep == 1.0 / r.ticksPerSecond as real && microstep == timestep / r.microticksPerTick as real
      ensures ball == old(ball).(radius := r.ballRadius, mass := r.ballMass, arenaE := r.ballArenaE)
      ensures |worldBots| == |old(worldBots)| + |robots|
      ensures worldBots[..|old(worldBots)|] == old(worldBots)
      ensures forall i :: |old(worldBots)| <= i < |worldBots| ==> worldBots[i] == RobotEntity(r)
      ensures var p := Pick(robots, HomeDists(robots, homePos, sqrt), |robots|, rules.arena.depth);
        bots == Crowned(Enlisted(robots, |robots|, old(bots), |old(worldBots)|), KeeperId(robots, p))
    {
      rules := r.(arena := Halved(r.arena));
      homePos := Vec3(0.0, 0.0, -rules.arena.depth + -r.arena.goalWidth / 2.0);
      goalPos := Vec3(0.0, 0.0, rules.arena.depth + r.arena.goalDepth);
      entityE := (r.maxHitE - r.maxHitE) / 2.0;
      ball := ball.(radius := r.ballRadius, mass := r.ballMass, arenaE := r.ballArenaE);
      var ticks, microticks := r.ticksPerSecond as real, r.microticksPerTick as real;
      timestep := 1.0 / ticks;
      microstep := timestep / microticks;

      var keeper := EnlistRobots(r, robots, sqrt);
      bots := Crowned(bots, keeper);
    }

    /**
     * The robot loop of `init`, lines 472-492: push a world entity per robot,
     * enter each teammate in the roster with its world slot, and return the
     * id of the teammate strictly closest to home among those closer than
     * the halved depth (`-1` when there is none).
     */
    method EnlistRobots(r: Rules, robots: seq<Robot>, sqrt: real -> real) returns (keeper: int)
      requires IsSqrt(sqrt)
      modifies this`worldBots, this`bots
      ensures |worldBots| == |old(worldBots)| + |robots|
      ensures worldBots[..|old(worldBots)|] == old(worldBots)
      ensures forall i :: |old(worldBots)| <= i < |worldBots| ==> worldBots[i] == RobotEntity(r)
      ensures bots == Enlisted(robots, |robots|, old(bots), |old(worldBots)|)
      ensures keeper == KeeperId(robots, Pick(robots, HomeDists(robots, homePos, sqrt), |robots|, rules.arena.depth))
    {
      ghost var base, bots0 := |worldBots|, bots;
      ghost var worldBots0 := worldBots;
      ghost var dists := HomeDists(robots, homePos, sqrt);
      var dist := rules.arena.depth;
      keeper := -1;
      var i := 0;
      while i != |robots|
        invariant 0 <= i <= |robots|
        invariant |worldBots| == base + i && worldBots[..base] == worldBots0
        invariant forall j :: base <= j < |worldBots| ==> worldBots[j] == RobotEntity(r)
        invariant bots == Enlisted(robots, i, bots0, base)
        invariant var p := Pick(robots, dists, i, rules.arena.depth); dist == p.1 && keeper == KeeperId(robots, p)
      {
        var dist', keeper' := EnlistOne(r, robots, i, dist, keeper, sqrt, bots0, base, dists);
        dist, keeper := dist', keeper';
        i := i + 1;
      }
    }

    /**
     * One pass of the robot loop of `init`, lines 474-491, for robot `i`:
     * push its world entity; for a teammate, enter it in the roster with
     * that slot and take it as keeper when it is strictly closer to home
     * than `dist`.  The roster and the running choice then stand as after
     * robot `i`.
     */
    method EnlistOne(r: Rules, robots: seq<Robot>, i: nat, dist: real, keeper: int, sqrt: real -> real,
                     ghost bots0: map<int, MyBot>, ghost base: int, ghost dists: seq<real>)
      returns (dist': real, keeper': int)
      requires IsSqrt(sqrt) && i < |robots| && |worldBots| == base + i
      requires dists == HomeDists(robots, homePos, sqrt)
      requires bots == Enlisted(robots, i, bots0, base)
      requires var p := Pick(robots, dists, i, rules.arena.depth); dist == p.1 && keeper == KeeperId(robots, p)
      modifies this`worldBots, this`bots
      ensures worldBots == old(worldBots) + [RobotEntity(r)]
      ensures bots == Enlisted(robots, i + 1, bots0, base)
      ensures var p := Pick(robots, dists, i + 1, rules.arena.depth); dist' == p.1 && keeper' == KeeperId(robots, p)
    {
      var bot := robots[i];
      dist', keeper' := dist, keeper;
      worldBots := worldBots + [RobotEntity(r)];
      if !bot.isTeammate {
        return;
      }
      var entry := if bot.id in bots then bots[bot.id] else DefaultBot;
      bots := bots[bot.id := entry.(index := |worldBots| - 1)];
      var homeDist := RobotPos(bot).Dist(homePos, sqrt);
      if homeDist < dist {
        dist', keeper' := homeDist, bot.id;
      }
    }
  }
}
