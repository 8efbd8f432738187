/**
 * What `MyStrategy::init` (MyStrategy.cpp lines 472-494) computes from the
 * robots of the first tick: the roster `m_bots` of our robots, each with
 * the slot of `s_world.bots` that mirrors it, and the keeper, the teammate
 * closest to the home position.
 */
module Team {
  import opened Linal

  /** `MyBot::Roles`. */
  datatype Role = Forward | Keeper

  /** The fields of `MyBot` the kernel uses: the world slot, the role and the readiness flag. */
  datatype MyBot = MyBot(index: int, role: Role, ready: bool)

  /** A value-initialised `MyBot`, as `m_bots[id]` creates one for an absent key. */
  const DefaultBot: MyBot := MyBot(0, Forward, false)

  /** The fields of `model::Robot` that `init` and `act` read. */
  datatype Robot = Robot(
    id: int, isTeammate: bool,
    x: real, y: real, z: real,
    velocityX: real, velocityY: real, velocityZ: real)

  function RobotPos(r: Robot): Vec3
  {
    Vec3(r.x, r.y, r.z)
  }

  /** `bot_pos.dist(s_home_pos)`. */
  function HomeDist(r: Robot, home: Vec3, sqrt: real -> real): real
    requires IsSqrt(sqrt)
  {
    RobotPos(r).Dist(home, sqrt)
  }

  /** The distance of every robot to the home position. */
  function HomeDists(robots: seq<Robot>, home: Vec3, sqrt: real -> real): (d: seq<real>)
    requires IsSqrt(sqrt)
    ensures |d| == |robots| && forall i :: 0 <= i < |robots| ==> d[i] == HomeDist(robots[i], home, sqrt)
  {
    seq(|robots|, i requires 0 <= i < |robots| => HomeDist(robots[i], home, sqrt))
  }

  /**
   * The argmin of the keeper loop over the first `n` robots, whose
   * distances to home are `dist`: an index into `robots` (`-1` for none)
   * with the distance it stands at.  A teammate replaces the current choice
   * only when it is strictly closer, starting from `bound`.
   */
  function Pick(robots: seq<Robot>, dist: seq<real>, n: nat, bound: real): (r: (int, real))
    requires |dist| == |robots| && n <= |robots|
    ensures -1 <= r.0 < n
    ensures r.0 == -1 ==> r.1 == bound
    ensures r.0 != -1 ==> r.1 == dist[r.0] < bound && robots[r.0].isTeammate
  {
    if n == 0 then (-1, bound)
    else
      var prev := Pick(robots, dist, n - 1, bound);
      if robots[n - 1].isTeammate && dist[n - 1] < prev.1 then (n - 1, dist[n - 1]) else prev
  }

  /** Teammate `i` is closer than `bound`, strictly closer than every teammate before it, and no farther than any after it among the first `n`. */
  ghost predicate FirstClosest(robots: seq<Robot>, dist: seq<real>, n: nat, i: int, bound: real)
    requires |dist| == |robots| && n <= |robots|
  {
    0 <= i < n && robots[i].isTeammate && dist[i] < bound &&
    (forall j :: 0 <= j < i && robots[j].isTeammate ==> dist[i] < dist[j]) &&
    (forall j :: i < j < n && robots[j].isTeammate ==> dist[i] <= dist[j])
  }

  /** No teammate among the first `n` robots is closer than `bound`. */
  ghost predicate NoneCloser(robots: seq<Robot>, dist: seq<real>, n: nat, bound: real)
    requires |dist| == |robots| && n <= |robots|
  {
    forall j :: 0 <= j < n && robots[j].isTeammate ==> bound <= dist[j]
  }

  /** What the keeper loop has established after `n` robots, given its choice `p`. */
  ghost predicate PickSound(robots: seq<Robot>, dist: seq<real>, n: nat, bound: real, p: (int, real))
    requires |dist| == |robots| && n <= |robots|
  {
    (p.0 == -1 && NoneCloser(robots, dist, n, bound)) ||
    (FirstClosest(robots, dist, n, p.0, bound) &&
     forall j :: 0 <= j < n && robots[j].isTeammate ==> p.1 <= dist[j])
  }

  /**
   * The loop picks the first of the closest teammates when one is closer
   * than the bound, and nobody otherwise: with the strict `<`, a tie goes to
   * the earlier robot.
   */
  lemma {:induction false} PickIsFirstClosest(robots: seq<Robot>, dist: seq<real>, n: nat, bound: real)
    requires |dist| == |robots| && n <= |robots|
    ensures PickSound(robots, dist, n, bound, Pick(robots, dist, n, bound))
  {
    if n > 0 {
      var m: nat := n - 1;
      PickIsFirstClosest(robots, dist, m, bound);
      PickStep(robots, dist, m, n, bound);
    }
  }

  /** The step of PickIsFirstClosest from `m` robots to `n == m + 1`. */
  lemma PickStep(robots: seq<Robot>, dist: seq<real>, m: nat, n: nat, bound: real)
    requires |dist| == |robots| && n == m + 1 && n <= |robots|
    requires PickSound(robots, dist, m, bound, Pick(robots, dist, m, bound))
    ensures PickSound(robots, dist, n, bound, Pick(robots, dist, n, bound))
  {
    var prev := Pick(robots, dist, m, bound);
    if robots[m].isTeammate && dist[m] < prev.1 {
      assert FirstClosest(robots, dist, n, m, bound);
    } else if prev.0 == -1 {
      assert NoneCloser(robots, dist, n, bound);
    } else {
      assert FirstClosest(robots, dist, n, prev.0, bound);
    }
  }

  /** At most one robot is the first of the closest teammates, so the keeper is well defined. */
  lemma FirstClosestUnique(robots: seq<Robot>, dist: seq<real>, n: nat, i: int, k: int, bound: real)
    requires |dist| == |robots| && n <= |robots|
    requires FirstClosest(robots, dist, n, i, bound) && FirstClosest(robots, dist, n, k, bound)
    ensures i == k
  {
  }

  /**
   * `m_bots` after the first `n` robots: a teammate's entry is created if
   * absent (`emplace` keeps an existing one) and then pointed at the world
   * slot `base + i` pushed for it.
   */
  function Enlisted(robots: seq<Robot>, n: nat, bots: map<int, MyBot>, base: int): map<int, MyBot>
    requires n <= |robots|
  {
    if n == 0 then bots
    else
      var m := Enlisted(robots, n - 1, bots, base);
      var r := robots[n - 1];
      if r.isTeammate then m[r.id := (if r.id in m then m[r.id] else DefaultBot).(index := base + n - 1)] else m
  }

  /** Every robot entered by `init` points at the world slot of a robot with its id, and that robot is a teammate. */
  lemma {:induction false} EnlistedIndex(robots: seq<Robot>, n: nat, bots: map<int, MyBot>, base: int)
    requires n <= |robots|
    ensures var m := Enlisted(robots, n, bots, base);
      forall id :: id in m && id !in bots ==>
        0 <= m[id].index - base < n && robots[m[id].index - base].id == id && robots[m[id].index - base].isTeammate
  {
    if n > 0 {
      var m: nat := n - 1;
      EnlistedIndex(robots, m, bots, base);
      var before, after := Enlisted(robots, m, bots, base), Enlisted(robots, n, bots, base);
      var r := robots[m];
      forall id | id in after && id !in bots
        ensures 0 <= after[id].index - base < n && robots[after[id].index - base].id == id && robots[after[id].index - base].isTeammate
      {
        if r.isTeammate && id == r.id {
          assert after[id].index == base + m;
        } else {
          assert after[id] == before[id];
        }
      }
    }
  }

  /** `init` adds exactly the ids of the teammates to the roster. */
  lemma {:induction false} EnlistedKeys(robots: seq<Robot>, n: nat, bots: map<int, MyBot>, base: int)
    requires n <= |robots|
    ensures Enlisted(robots, n, bots, base).Keys == bots.Keys + set i | 0 <= i < n && robots[i].isTeammate :: robots[i].id
  {
    if n > 0 {
      var m: nat := n - 1;
      EnlistedKeys(robots, m, bots, base);
      var s, t := set i | 0 <= i < m && robots[i].isTeammate :: robots[i].id, set i | 0 <= i < n && robots[i].isTeammate :: robots[i].id;
      if robots[m].isTeammate {
        assert t == s + {robots[m].id};
      } else {
        assert t == s;
      }
    }
  }
}
