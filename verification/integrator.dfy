/**
 * The ball integrator of MyStrategy.cpp: `move` (one explicit step under
 * gravity with the speed clamped), the push-out and restitution bounce of a
 * micro-step, and the tick that tries one full step and falls back to
 * `MICROTICKS_PER_TICK` micro-steps when the full step ends inside the
 * arena's surface.
 */
module Integrator {
  import opened Linal
  import opened World
  import opened Collision
  import CollisionRegions

  /** How far a body starting at rest falls in `dt` under gravity `g`. */
  function Fall(dt: real, g: real): real
  {
    g * dt * dt / 2.0
  }

  /** Over `s + t` a body falls its fall over `s`, its fall over `t`, and `g*s*t` for the speed gained over `s`. */
  lemma FallSum(s: real, t: real, g: real)
    ensures Fall(s + t, g) == Fall(s, g) + g * s * t + Fall(t, g)
  {
    var gss, gst, gtt := g * s * s, g * s * t, g * t * t;
    assert g * (s + t) * (s + t) == gss + 2.0 * gst + gtt;
  }

  /** The position after flying for `dt` from `p` with velocity `v` under gravity `g`. */
  function FlightPos(p: Vec3, v: Vec3, dt: real, g: real): Vec3
  {
    var q := p.Add(v.Scale(dt));
    q.(y := q.y - Fall(dt, g))
  }

  /** The velocity after flying for `dt` under gravity `g`: only `y` changes, by `-g*dt`. */
  function FlightVel(v: Vec3, dt: real, g: real): (w: Vec3)
    ensures w.x == v.x && w.z == v.z && w.y + g * dt == v.y
  {
    v.(y := v.y - g * dt)
  }

  /**
   * The flight's position update is the trapezoid rule: the old position
   * plus the mean of the old and the new velocity times `dt`, which is exact
   * for motion under constant gravity.
   */
  lemma FlightTrapezoid(p: Vec3, v: Vec3, dt: real, g: real)
    ensures FlightPos(p, v, dt, g) == p.Add(v.Add(FlightVel(v, dt, g)).Scale(dt / 2.0))
  {
    var mean := v.Add(FlightVel(v, dt, g)).Scale(dt / 2.0);
    var gdd := g * dt * dt;
    assert mean.x == (v.x + v.x) * (dt / 2.0) == v.x * dt;
    assert mean.y == (v.y + (v.y - g * dt)) * (dt / 2.0) == v.y * dt - gdd / 2.0 == v.y * dt - Fall(dt, g);
    assert mean.z == (v.z + v.z) * (dt / 2.0) == v.z * dt;
  }

  /** Two flights in a row are one flight over the summed time. */
  lemma FlightCompose(p: Vec3, v: Vec3, s: real, t: real, g: real)
    ensures FlightPos(FlightPos(p, v, s, g), FlightVel(v, s, g), t, g) == FlightPos(p, v, s + t, g)
    ensures FlightVel(FlightVel(v, s, g), t, g) == FlightVel(v, s + t, g)
  {
    FlightComposeFlat(p, v, s, t, g);
    FlightComposeY(p, v, s, t, g);
  }

  /** The horizontal part of FlightCompose: uniform motion adds up. */
  lemma FlightComposeFlat(p: Vec3, v: Vec3, s: real, t: real, g: real)
    ensures FlightPos(FlightPos(p, v, s, g), FlightVel(v, s, g), t, g).x == FlightPos(p, v, s + t, g).x
    ensures FlightPos(FlightPos(p, v, s, g), FlightVel(v, s, g), t, g).z == FlightPos(p, v, s + t, g).z
  {
    UniformSum(p.x, v.x, s, t);
    UniformSum(p.z, v.z, s, t);
  }

  /** Uniform motion over `s` and then `t` is uniform motion over `s + t`. */
  lemma UniformSum(p: real, v: real, s: real, t: real)
    ensures (p + v * s) + v * t == p + v * (s + t)
  {
    var vs, vt := v * s, v * t;
    assert v * (s + t) == vs + vt;
  }

  /** The vertical part of FlightCompose. */
  lemma FlightComposeY(p: Vec3, v: Vec3, s: real, t: real, g: real)
    ensures FlightPos(FlightPos(p, v, s, g), FlightVel(v, s, g), t, g).y == FlightPos(p, v, s + t, g).y
  {
    var gst, vs, vt := g * s * t, v.y * s, v.y * t;
    FallSum(s, t, g);
    assert (v.y - g * s) * t == vt - gst;
    assert v.y * (s + t) == vs + vt;
  }

  /** A flight from rest only falls by `g*dt^2/2`. */
  lemma FlightFromRest(p: Vec3, dt: real, g: real)
    ensures FlightPos(p, Zero3, dt, g) == p.(y := p.y - g * dt * dt / 2.0)
    ensures FlightVel(Zero3, dt, g) == Vec3(0.0, -(g * dt), 0.0)
  {
  }

  /**
   * `move(e, dt)` as a value: clamp the speed to `MAX_ENTITY_SPEED`, then fly
   * for `dt` with the clamped velocity; nothing but the position and the
   * velocity changes, and the speed it starts the flight with is within the
   * limit.
   */
  function Moved(e: Entity, dt: real, rules: Rules, sqrt: real -> real): (m: Entity)
    requires IsSqrt(sqrt) && 0.0 < rules.maxEntitySpeed
    ensures m.(pos := e.pos, vel := e.vel) == e
    ensures var v := e.vel.Clamp(rules.maxEntitySpeed, sqrt);
      v.Len(sqrt) <= rules.maxEntitySpeed &&
      m.pos == FlightPos(e.pos, v, dt, rules.gravity) && m.vel == FlightVel(v, dt, rules.gravity)
  {
    var v := e.vel.Clamp(rules.maxEntitySpeed, sqrt);
    e.(pos := FlightPos(e.pos, v, dt, rules.gravity), vel := FlightVel(v, dt, rules.gravity))
  }

  /** `move(Entity& e, timestep)`, lines 91-97, updating the entity's vectors in place. */
  method Move(e: Entity, dt: real, rules: Rules, sqrt: real -> real) returns (m: Entity)
    requires IsSqrt(sqrt) && 0.0 < rules.maxEntitySpeed
    ensures m == Moved(e, dt, rules, sqrt)
  {
    var vel := new MutableVec3(e.vel);
    var pos := new MutableVec3(e.pos);
    var v := vel.Clamp(rules.maxEntitySpeed, sqrt);
    Fly(pos, vel, dt, rules.gravity);
    m := e.(pos := pos.Value(), vel := vel.Value());
  }

  /** Lines 94-96: the flight part of `move`, on the entity's position and (already clamped) velocity. */
  method Fly(pos: MutableVec3, vel: MutableVec3, dt: real, g: real)
    requires pos != vel
    modifies pos, vel
    ensures pos.Value() == FlightPos(old(pos.Value()), old(vel.Value()), dt, g)
    ensures vel.Value() == FlightVel(old(vel.Value()), dt, g)
  {
    var q := pos.AddAssign(vel.Value().Scale(dt));
    pos.y := pos.y - Fall(dt, g);
    vel.y := vel.y - g * dt;
  }

  /**
   * Two moves in a row are one move over the summed time, as long as the
   * speed limit does not cut in: the clamp is then the identity and the
   * gravity terms add up to `g*(s+t)^2/2`.
   */
  lemma MovesCompose(e: Entity, s: real, t: real, rules: Rules, sqrt: real -> real)
    requires IsSqrt(sqrt) && 0.0 < rules.maxEntitySpeed
    requires e.vel.Len(sqrt) <= rules.maxEntitySpeed
    requires Moved(e, s, rules, sqrt).vel.Len(sqrt) <= rules.maxEntitySpeed
    ensures Moved(Moved(e, s, rules, sqrt), t, rules, sqrt) == Moved(e, s + t, rules, sqrt)
  {
    var m1 := Moved(e, s, rules, sqrt);
    assert e.vel.Clamp(rules.maxEntitySpeed, sqrt) == e.vel;
    assert m1.vel.Clamp(rules.maxEntitySpeed, sqrt) == m1.vel;
    FlightCompose(e.pos, e.vel, s, t, rules.gravity);
  }

  /**
   * The reflection of lines 433-440: with `v = vel . n`, nothing happens
   * unless `v > 0`; otherwise `(1 + e) * v` of the normal is taken away.
   */
  function Bounce(vel: Vec3, n: Vec3, e: real): (w: Vec3)
    ensures vel.Dot(n) <= 0.0 ==> w == vel
    ensures 0.0 < vel.Dot(n) ==> w.Add(n.Scale((1.0 + e) * vel.Dot(n))) == vel
  {
    var v := vel.Dot(n);
    if v > 0.0 then vel.Sub(n.Scale((1.0 + e) * v)) else vel
  }

  /**
   * The bounce law for a unit normal: an approaching velocity leaves with
   * its normal component scaled by `-e`, and the part orthogonal to the
   * normal is left as it was.
   */
  lemma BounceLaw(vel: Vec3, n: Vec3, e: real)
    requires n.Dot(n) == 1.0 && 0.0 < vel.Dot(n)
    ensures Bounce(vel, n, e).Dot(n) == -e * vel.Dot(n)
    ensures var w := Bounce(vel, n, e);
      w.Sub(n.Scale(w.Dot(n))) == vel.Sub(n.Scale(vel.Dot(n)))
  {
    var v := vel.Dot(n);
    var k := (1.0 + e) * v;
    BounceNormal(vel, n, k);
    assert v - k == -e * v;
    var w := vel.Sub(n.Scale(k));
    assert Bounce(vel, n, e) == w;
    RemoveAlong(vel, n, k, v - k);
  }

  /**
   * `w`, the bounce of `v` off the unit normal `n`, no longer moves into the
   * surface, and when `v` approached it `w` leaves with `-e` times its
   * normal component.
   */
  predicate Separating(w: Vec3, v: Vec3, n: Vec3, e: real)
  {
    w.Dot(n) <= 0.0 && (0.0 < v.Dot(n) ==> w.Dot(n) == -e * v.Dot(n))
  }

  /** With a unit normal and `0 <= e`, a bounced velocity never moves into the surface. */
  lemma BounceSeparates(vel: Vec3, n: Vec3, e: real)
    requires n.Dot(n) == 1.0 && 0.0 <= e
    ensures Separating(Bounce(vel, n, e), vel, n, e)
  {
    if 0.0 < vel.Dot(n) {
      BounceLaw(vel, n, e);
      assert 0.0 <= e * vel.Dot(n);
    }
  }

  /** Taking `k` of a unit normal away lowers the normal component by `k`. */
  lemma BounceNormal(vel: Vec3, n: Vec3, k: real)
    requires n.Dot(n) == 1.0
    ensures vel.Sub(n.Scale(k)).Dot(n) == vel.Dot(n) - k
  {
    DotSub3(vel, n.Scale(k), n);
    DotScale3(n, k, n);
  }

  /** Once its normal component `c` is subtracted, `vel - k n` leaves what `vel` leaves. */
  lemma RemoveAlong(vel: Vec3, n: Vec3, k: real, c: real)
    requires c == vel.Dot(n) - k
    ensures vel.Sub(n.Scale(k)).Sub(n.Scale(c)) == vel.Sub(n.Scale(vel.Dot(n)))
  {
    var v := vel.Dot(n);
    RemoveAlongScalar(vel.x, n.x, k, c, v);
    RemoveAlongScalar(vel.y, n.y, k, c, v);
    RemoveAlongScalar(vel.z, n.z, k, c, v);
  }

  lemma RemoveAlongScalar(a: real, m: real, k: real, c: real, v: real)
    requires k + c == v
    ensures (a - m * k) - m * c == a - m * v
  {
    var p, q := m * k, m * c;
    assert p + q == m * v;
  }

  /**
   * One pass of the micro-step loop, lines 425-442: move by `h`, probe, and
   * when the probe reports penetration push the ball out along the normal by
   * the depth and bounce its velocity.
   */
  function MicroStep(ball: Entity, h: real, rules: Rules, sqrt: real -> real): (b: Entity)
    requires IsSqrt(sqrt) && 0.0 < rules.maxEntitySpeed
    requires ProbeDefined(Moved(ball, h, rules, sqrt), rules.arena)
    ensures var m := Moved(ball, h, rules, sqrt);
      var t := CheckArenaCollision(m, rules.arena, sqrt);
      b.(pos := m.pos, vel := m.vel) == m &&
      (t.depth <= 0.0 ==> b == m) &&
      (0.0 < t.depth ==> b.pos.Add(t.normal.Scale(t.depth)) == m.pos && b.vel == Bounce(m.vel, t.normal, m.arenaE))
  {
    var m := Moved(ball, h, rules, sqrt);
    var t := CheckArenaCollision(m, rules.arena, sqrt);
    if t.depth > 0.0 then
      m.(pos := m.pos.Sub(t.normal.Scale(t.depth)), vel := Bounce(m.vel, t.normal, m.arenaE))
    else
      m
  }

  /** Whether the probe is defined at each of the first `n` micro-steps from `ball`. */
  predicate MicroTicksDefined(ball: Entity, n: nat, h: real, rules: Rules, sqrt: real -> real)
    requires IsSqrt(sqrt) && 0.0 < rules.maxEntitySpeed
    decreases n, 0
  {
    n == 0 ||
    (MicroTicksDefined(ball, n - 1, h, rules, sqrt) &&
     ProbeDefined(Moved(MicroTicks(ball, n - 1, h, rules, sqrt), h, rules, sqrt), rules.arena))
  }

  /** The ball after `n` passes of the micro-step loop. */
  function MicroTicks(ball: Entity, n: nat, h: real, rules: Rules, sqrt: real -> real): (b: Entity)
    requires IsSqrt(sqrt) && 0.0 < rules.maxEntitySpeed
    requires MicroTicksDefined(ball, n, h, rules, sqrt)
    ensures b.radius == ball.radius && b.mass == ball.mass && b.arenaE == ball.arenaE && b.touch == ball.touch
    decreases n, 1
  {
    if n == 0 then ball else MicroStep(MicroTicks(ball, n - 1, h, rules, sqrt), h, rules, sqrt)
  }

  lemma {:induction false} MicroTicksDefinedPrefix(ball: Entity, i: nat, n: nat, h: real, rules: Rules, sqrt: real -> real)
    requires IsSqrt(sqrt) && 0.0 < rules.maxEntitySpeed
    requires i <= n && MicroTicksDefined(ball, n, h, rules, sqrt)
    ensures MicroTicksDefined(ball, i, h, rules, sqrt)
  {
    if i < n {
      var m: nat := n - 1;
      MicroTicksDefinedLast(ball, m, n, h, rules, sqrt);
      MicroTicksDefinedPrefix(ball, i, m, h, rules, sqrt);
    }
  }

  lemma MicroTicksDefinedLast(ball: Entity, m: nat, n: nat, h: real, rules: Rules, sqrt: real -> real)
    requires IsSqrt(sqrt) && 0.0 < rules.maxEntitySpeed
    requires n == m + 1 && MicroTicksDefined(ball, n, h, rules, sqrt)
    ensures MicroTicksDefined(ball, m, h, rules, sqrt)
  {
  }

  /** Whether `BallTick` divides by zero nowhere: at the full-step probe and, if it is taken, at every micro-step probe. */
  predicate TickDefined(ball: Entity, rules: Rules, timestep: real, microstep: real, sqrt: real -> real)
    requires IsSqrt(sqrt) && 0.0 < rules.maxEntitySpeed
  {
    var full := Moved(ball, timestep, rules, sqrt);
    ProbeDefined(full, rules.arena) &&
    (CheckArenaCollision(full, rules.arena, sqrt).depth > 0.0 ==>
       MicroTicksDefined(ball, rules.microticksPerTick, microstep, rules, sqrt))
  }

  /**
   * The ball after `BallTick`, lines 410-447: the full step if its probe
   * reports no penetration, otherwise `MICROTICKS_PER_TICK` micro-steps from
   * the ball as it was.  The `depth > 10` reset of line 418 changes nothing,
   * since the micro-steps are entered before it and the probe result it
   * resets is overwritten by the first micro-step.
   */
  function BallTicked(ball: Entity, rules: Rules, timestep: real, microstep: real, sqrt: real -> real): (b: Entity)
    requires IsSqrt(sqrt) && 0.0 < rules.maxEntitySpeed
    requires TickDefined(ball, rules, timestep, microstep, sqrt)
    ensures b.radius == ball.radius && b.mass == ball.mass && b.arenaE == ball.arenaE && b.touch == ball.touch
  {
    var full := Moved(ball, timestep, rules, sqrt);
    if CheckArenaCollision(full, rules.arena, sqrt).depth > 0.0 then
      MicroTicks(ball, rules.microticksPerTick, microstep, rules, sqrt)
    else
      full
  }

  /** The drift of `k` micro-steps of length `h` taken as a single move. */
  function Drift(ball: Entity, k: nat, h: real, rules: Rules, sqrt: real -> real): (d: Entity)
    requires IsSqrt(sqrt) && 0.0 < rules.maxEntitySpeed
  {
    Moved(ball, k as real * h, rules, sqrt)
  }

  /**
   * The first `n` micro-steps from `ball` would fly free if each were a plain
   * move: none of them ends inside the arena's surface, and the speed limit
   * never cuts in.
   */
  predicate FreeFlight(ball: Entity, n: nat, h: real, rules: Rules, sqrt: real -> real)
    requires IsSqrt(sqrt) && 0.0 < rules.maxEntitySpeed
  {
    ball.vel.Len(sqrt) <= rules.maxEntitySpeed &&
    forall k: nat {:trigger Drift(ball, k, h, rules, sqrt)} :: k < n ==>
      var d := Drift(ball, k, h, rules, sqrt);
      d.vel.Len(sqrt) <= rules.maxEntitySpeed &&
      ProbeDefined(Moved(d, h, rules, sqrt), rules.arena) &&
      CheckArenaCollision(Moved(d, h, rules, sqrt), rules.arena, sqrt).depth <= 0.0
  }

  /** A drift is the move over the time it spans. */
  lemma DriftSpan(ball: Entity, k: nat, h: real, t: real, rules: Rules, sqrt: real -> real)
    requires IsSqrt(sqrt) && 0.0 < rules.maxEntitySpeed
    requires k as real * h == t
    ensures Drift(ball, k, h, rules, sqrt) == Moved(ball, t, rules, sqrt)
  {
  }

  /** A micro-step whose probe reports no penetration is a plain move. */
  lemma QuietStep(b: Entity, h: real, rules: Rules, sqrt: real -> real)
    requires IsSqrt(sqrt) && 0.0 < rules.maxEntitySpeed
    requires ProbeDefined(Moved(b, h, rules, sqrt), rules.arena)
    requires CheckArenaCollision(Moved(b, h, rules, sqrt), rules.arena, sqrt).depth <= 0.0
    ensures MicroStep(b, h, rules, sqrt) == Moved(b, h, rules, sqrt)
  {
  }

  /** A move over no time only clamps the velocity. */
  lemma MoveNoTime(e: Entity, rules: Rules, sqrt: real -> real)
    requires IsSqrt(sqrt) && 0.0 < rules.maxEntitySpeed
    requires e.vel.Len(sqrt) <= rules.maxEntitySpeed
    ensures Moved(e, 0.0, rules, sqrt) == e
  {
    assert e.vel.Clamp(rules.maxEntitySpeed, sqrt) == e.vel;
  }

  /** One more plain move extends a drift by one micro-step. */
  lemma DriftStep(ball: Entity, k: nat, n: nat, h: real, rules: Rules, sqrt: real -> real)
    requires IsSqrt(sqrt) && 0.0 < rules.maxEntitySpeed
    requires n == k + 1
    requires ball.vel.Len(sqrt) <= rules.maxEntitySpeed
    requires Drift(ball, k, h, rules, sqrt).vel.Len(sqrt) <= rules.maxEntitySpeed
    ensures Moved(Drift(ball, k, h, rules, sqrt), h, rules, sqrt) == Drift(ball, n, h, rules, sqrt)
  {
    var s := k as real * h;
    MovesCompose(ball, s, h, rules, sqrt);
    assert s + h == n as real * h;
  }

  /** The last of `n` micro-steps, for a probe defined along the way. */
  lemma MicroTicksStep(ball: Entity, m: nat, n: nat, h: real, rules: Rules, sqrt: real -> real)
    requires IsSqrt(sqrt) && 0.0 < rules.maxEntitySpeed
    requires n == m + 1 && MicroTicksDefined(ball, m, h, rules, sqrt)
    requires ProbeDefined(Moved(MicroTicks(ball, m, h, rules, sqrt), h, rules, sqrt), rules.arena)
    ensures MicroTicksDefined(ball, n, h, rules, sqrt)
    ensures MicroTicks(ball, n, h, rules, sqrt) == MicroStep(MicroTicks(ball, m, h, rules, sqrt), h, rules, sqrt)
  {
  }

  /** `n` free micro-steps of length `h` are a single move over `n * h`. */
  lemma {:induction false} DriftCollapse(ball: Entity, n: nat, h: real, rules: Rules, sqrt: real -> real)
    requires IsSqrt(sqrt) && 0.0 < rules.maxEntitySpeed
    requires FreeFlight(ball, n, h, rules, sqrt)
    ensures MicroTicksDefined(ball, n, h, rules, sqrt)
    ensures MicroTicks(ball, n, h, rules, sqrt) == Drift(ball, n, h, rules, sqrt)
  {
    if n == 0 {
      MoveNoTime(ball, rules, sqrt);
    } else {
      var m: nat := n - 1;
      var d := Drift(ball, m, h, rules, sqrt);
      assert FreeFlight(ball, m, h, rules, sqrt);
      DriftCollapse(ball, m, h, rules, sqrt);
      MicroTicksStep(ball, m, n, h, rules, sqrt);
      QuietStep(d, h, rules, sqrt);
      DriftStep(ball, m, n, h, rules, sqrt);
    }
  }

  /**
   * When the micro-steps would fly free and add up to the full step, the
   * full step itself probes no penetration, so `BallTick` never enters its
   * micro-step loop and ends where the full step does.
   */
  lemma FreeFlightNoSubsteps(ball: Entity, rules: Rules, timestep: real, microstep: real, sqrt: real -> real)
    requires IsSqrt(sqrt) && 0.0 < rules.maxEntitySpeed
    requires TickDefined(ball, rules, timestep, microstep, sqrt)
    requires rules.microticksPerTick as real * microstep == timestep
    requires FreeFlight(ball, rules.microticksPerTick, microstep, rules, sqrt)
    ensures 0 < rules.microticksPerTick ==> CheckArenaCollision(Moved(ball, timestep, rules, sqrt), rules.arena, sqrt).depth <= 0.0
    ensures BallTicked(ball, rules, timestep, microstep, sqrt) == Moved(ball, timestep, rules, sqrt)
  {
    if 0 < rules.microticksPerTick {
      FullStepQuiet(ball, rules.microticksPerTick, microstep, timestep, rules, sqrt);
    }
    SubstepsReachFull(ball, rules.microticksPerTick, rules, timestep, microstep, sqrt);
  }

  /** The last of `n` free micro-steps ends where the full step does, so the full step probes no penetration either. */
  lemma FullStepQuiet(ball: Entity, n: nat, microstep: real, timestep: real, rules: Rules, sqrt: real -> real)
    requires IsSqrt(sqrt) && 0.0 < rules.maxEntitySpeed
    requires 0 < n && n as real * microstep == timestep
    requires FreeFlight(ball, n, microstep, rules, sqrt)
    ensures var m := Moved(ball, timestep, rules, sqrt);
      ProbeDefined(m, rules.arena) && CheckArenaCollision(m, rules.arena, sqrt).depth <= 0.0
  {
    var k: nat := n - 1;
    var d := Drift(ball, k, microstep, rules, sqrt);
    assert d.vel.Len(sqrt) <= rules.maxEntitySpeed &&
      ProbeDefined(Moved(d, microstep, rules, sqrt), rules.arena) &&
      CheckArenaCollision(Moved(d, microstep, rules, sqrt), rules.arena, sqrt).depth <= 0.0;
    DriftStep(ball, k, n, microstep, rules, sqrt);
    DriftSpan(ball, n, microstep, timestep, rules, sqrt);
  }

  /**
   * A micro-step that probes penetration leaves the ball no longer moving
   * into the surface when its restitution is non-negative: an approaching
   * normal component `v` comes out as `-arena_e * v`, and a separating one
   * is left alone.
   */
  lemma MicroStepSeparates(ball: Entity, h: real, rules: Rules, sqrt: real -> real)
    requires IsSqrt(sqrt) && 0.0 < rules.maxEntitySpeed
    requires ProbeDefined(Moved(ball, h, rules, sqrt), rules.arena)
    requires 0.0 <= ball.arenaE
    ensures var m := Moved(ball, h, rules, sqrt);
      var t := CheckArenaCollision(m, rules.arena, sqrt);
      0.0 < t.depth ==> Separating(MicroStep(ball, h, rules, sqrt).vel, m.vel, t.normal, ball.arenaE)
  {
    var m := Moved(ball, h, rules, sqrt);
    var t := CheckArenaCollision(m, rules.arena, sqrt);
    if 0.0 < t.depth {
      UnitSqLen3(t.normal, sqrt);
      BounceSeparates(m.vel, t.normal, ball.arenaE);
    }
  }

  /** `n` free micro-steps that add up to the full step end where the full step does. */
  lemma SubstepsReachFull(ball: Entity, n: nat, rules: Rules, timestep: real, microstep: real, sqrt: real -> real)
    requires IsSqrt(sqrt) && 0.0 < rules.maxEntitySpeed
    requires n as real * microstep == timestep
    requires FreeFlight(ball, n, microstep, rules, sqrt)
    ensures MicroTicksDefined(ball, n, microstep, rules, sqrt)
    ensures MicroTicks(ball, n, microstep, rules, sqrt) == Moved(ball, timestep, rules, sqrt)
  {
    DriftCollapse(ball, n, microstep, rules, sqrt);
    DriftSpan(ball, n, microstep, timestep, rules, sqrt);
  }
}
