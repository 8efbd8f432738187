/**
 * The vector algebra of linal.h over the reals.
 *
 * `Vec2` and `Vec3` are values: `len`, `normal`, `dot`, `dist`, `project`,
 * `deviation`, the static `clamp` and the binary operators are functions on
 * them.  `MutableVec2` and `MutableVec3` are the objects whose members change
 * x, y (and z) in place: `normalize`, the in-place `clamp`, unary minus and the
 * compound assignments.  Each in-place member is specified by the pure
 * function that computes the same value.
 *
 * The library square root is not given a body: every member that needs it
 * takes it as a parameter `sqrt` with `requires IsSqrt(sqrt)`, which says all
 * the model uses about it.
 */
module Linal {

  /** `sqrt` is a square root on the non-negative reals. */
  ghost predicate IsSqrt(sqrt: real -> real)
  {
    forall x: real {:trigger sqrt(x)} :: 0.0 <= x ==> 0.0 <= sqrt(x) && sqrt(x) * sqrt(x) == x
  }

  lemma SquareLess(a: real, b: real)
    requires 0.0 <= a < b
    ensures a * a < b * b
  {
    var aa, ab, bb := a * a, a * b, b * b;
    assert aa <= ab;
    assert ab < bb;
  }

  /** The non-negative square root is unique, so `sqrt` is determined wherever it is used. */
  lemma SqrtUnique(sqrt: real -> real, x: real, s: real)
    requires IsSqrt(sqrt) && 0.0 <= s && s * s == x
    ensures sqrt(x) == s
  {
    var t := sqrt(x);
    if t < s {
      SquareLess(t, s);
    } else if s < t {
      SquareLess(s, t);
    }
  }

  lemma SquareZero(a: real)
    requires a * a == 0.0
    ensures a == 0.0
  {
    if a < 0.0 {
      SquareLess(0.0, -a);
    } else if 0.0 < a {
      SquareLess(0.0, a);
    }
  }

  lemma CancelFactor(a: real, b: real, c: real)
    requires c != 0.0 && a * c == b * c
    ensures a == b
  {
    var ac, bc := a * c, b * c;
    assert a == ac / c;
    assert b == bc / c;
  }

  lemma DivSelf(a: real)
    requires a != 0.0
    ensures a / a == 1.0
  {
    var q := a / a;
    assert q * a == a;
    CancelFactor(q, 1.0, a);
  }

  /** If `q * d * d == a` then the square root of `q` is that of `a` divided by `d`. */
  lemma SqrtDivided(sqrt: real -> real, q: real, a: real, d: real)
    requires IsSqrt(sqrt) && 0.0 <= a && 0.0 < d && q * (d * d) == a
    ensures sqrt(q) == sqrt(a) / d
  {
    var dd := d * d;
    SquareLess(0.0, d);
    var s := sqrt(a) / d;
    QuotientSquare(sqrt(a), d);
    assert s * s * dd == q * dd;
    CancelFactor(s * s, q, dd);
    assert 0.0 <= s;
    SqrtUnique(sqrt, q, s);
  }

  /** Dividing both sides of a square by a non-zero number. */
  lemma QuotientSquare(a: real, d: real)
    requires d != 0.0
    ensures (a / d) * (a / d) * (d * d) == a * a
  {
    var q := a / d;
    assert q * d == a;
    calc {
      q * q * (d * d);
      (q * d) * (q * d);
      a * a;
    }
  }

  lemma DivTimes(a: real, d: real)
    requires d != 0.0
    ensures (a / d) * d == a
  {
  }

  lemma SquaresNonnegative(x: real, y: real, z: real)
    ensures 0.0 <= x * x + y * y + z * z && 0.0 <= x * x + y * y
  {
    var xx, yy, zz := x * x, y * y, z * z;
    assert 0.0 <= xx && 0.0 <= yy && 0.0 <= zz;
  }

  /** Dividing each of up to three components by `d` divides their sum of squares by `d * d`. */
  lemma QuotientSquares(x: real, y: real, z: real, d: real)
    requires d != 0.0
    ensures ((x / d) * (x / d) + (y / d) * (y / d) + (z / d) * (z / d)) * (d * d) == x * x + y * y + z * z
    ensures ((x / d) * (x / d) + (y / d) * (y / d)) * (d * d) == x * x + y * y
  {
    QuotientSquare(x, d);
    QuotientSquare(y, d);
    QuotientSquare(z, d);
    var a, b, c, dd := (x / d) * (x / d), (y / d) * (y / d), (z / d) * (z / d), d * d;
    assert (a + b + c) * dd == a * dd + b * dd + c * dd;
    assert (a + b) * dd == a * dd + b * dd;
  }

  datatype Vec2 = Vec2(x: real, y: real)
  {
    function SqLen(): real
    {
      x * x + y * y
    }

    /** `len()`: the Euclidean length. */
    function Len(sqrt: real -> real): (r: real)
      requires IsSqrt(sqrt)
      ensures 0.0 <= r && r * r == SqLen()
    {
      sqrt(SqLen())
    }

    /** `normal()`: a copy with every component divided by `len()`. */
    function Normal(sqrt: real -> real): (r: Vec2)
      requires IsSqrt(sqrt) && Len(sqrt) != 0.0
      ensures r.Len(sqrt) == 1.0
      ensures r.Scale(Len(sqrt)) == this
    {
      var len := Len(sqrt);
      LenDivided2(this, len, sqrt);
      DividedScale2(this, len);
      DivSelf(len);
      Vec2(x / len, y / len)
    }

    /** `dist(other)`: the length of the difference. */
    function Dist(other: Vec2, sqrt: real -> real): real
      requires IsSqrt(sqrt)
    {
      Sub(other).Len(sqrt)
    }

    /** `dot(other)`. */
    function Dot(other: Vec2): real
    {
      x * other.x + y * other.y
    }

    /** `project(other)`: unlike the vec3 version, the dot product is taken with `other` itself, not with its unit vector. */
    function Project(other: Vec2, sqrt: real -> real): Vec2
      requires IsSqrt(sqrt) && other.Len(sqrt) != 0.0
    {
      other.Normal(sqrt).Scale(Dot(other))
    }

    /** `deviation(dir)`: the length of what `project` leaves over. */
    function Deviation(dir: Vec2, sqrt: real -> real): real
      requires IsSqrt(sqrt) && dir.Len(sqrt) != 0.0
    {
      Sub(Project(dir, sqrt)).Len(sqrt)
    }

    /** The static `clamp(v, limit)`: scale the vector down to length `limit` if it is longer. */
    function Clamp(limit: real, sqrt: real -> real): (r: Vec2)
      requires IsSqrt(sqrt) && 0.0 < limit
      ensures r.Len(sqrt) <= limit
      ensures Len(sqrt) <= limit ==> r == this
      ensures limit < Len(sqrt) ==> r.Len(sqrt) == limit
    {
      var div := Len(sqrt);
      if div == 0.0 then
        ZeroLen2(this, sqrt);
        Vec2(0.0, 0.0)
      else if div <= limit then
        this
      else
        var d := div / limit;
        LenDivided2(this, d, sqrt);
        Vec2(x / d, y / d)
    }

    /** Unary minus, as a value (the C++ operator also overwrites its operand: see MutableVec2.Negate). */
    function Neg(): Vec2
    {
      Vec2(-x, -y)
    }

    function Add(other: Vec2): Vec2
    {
      Vec2(x + other.x, y + other.y)
    }

    function Sub(other: Vec2): Vec2
    {
      Vec2(x - other.x, y - other.y)
    }

    /** Component-wise product (`operator*` of two vectors). */
    function Mul(other: Vec2): Vec2
    {
      Vec2(x * other.x, y * other.y)
    }

    /** Component-wise quotient (`operator/` of two vectors). */
    function Div(other: Vec2): Vec2
      requires other.x != 0.0 && other.y != 0.0
    {
      Vec2(x / other.x, y / other.y)
    }

    /** `v * s` and `s * v`. */
    function Scale(s: real): Vec2
    {
      Vec2(x * s, y * s)
    }

    /** `v / s`. */
    function DivBy(s: real): Vec2
      requires s != 0.0
    {
      Vec2(x / s, y / s)
    }
  }

  lemma ZeroLen2(v: Vec2, sqrt: real -> real)
    requires IsSqrt(sqrt) && v.Len(sqrt) == 0.0
    ensures v == Vec2(0.0, 0.0)
  {
    var xx, yy := v.x * v.x, v.y * v.y;
    assert xx + yy == 0.0;
    SquareZero(v.x);
    SquareZero(v.y);
  }

  /** Dividing every component by `d > 0` divides the length by `d`. */
  lemma LenDivided2(v: Vec2, d: real, sqrt: real -> real)
    requires IsSqrt(sqrt) && 0.0 < d
    ensures Vec2(v.x / d, v.y / d).Len(sqrt) == v.Len(sqrt) / d
  {
    var u := Vec2(v.x / d, v.y / d);
    SqLenDivided2(v, d);
    SqrtDivided(sqrt, u.SqLen(), v.SqLen(), d);
  }

  /** Dividing every component by `d` divides the squared length by `d * d`. */
  lemma SqLenDivided2(v: Vec2, d: real)
    requires d != 0.0
    ensures Vec2(v.x / d, v.y / d).SqLen() * (d * d) == v.SqLen()
    ensures 0.0 <= v.SqLen()
  {
    QuotientSquares(v.x, v.y, 0.0, d);
    SquaresNonnegative(v.x, v.y, 0.0);
  }

  /** Multiplying back by `d` undoes the division of every component. */
  lemma DividedScale2(v: Vec2, d: real)
    requires d != 0.0
    ensures Vec2(v.x / d, v.y / d).Scale(d) == v
  {
    DivTimes(v.x, d);
    DivTimes(v.y, d);
  }

  datatype Vec3 = Vec3(x: real, y: real, z: real)
  {
    function SqLen(): real
    {
      x * x + y * y + z * z
    }

    /** `len()`: the Euclidean length. */
    function Len(sqrt: real -> real): (r: real)
      requires IsSqrt(sqrt)
      ensures 0.0 <= r && r * r == SqLen()
    {
      sqrt(SqLen())
    }

    /** `normal()`: a copy with every component divided by `len()`. */
    function Normal(sqrt: real -> real): (r: Vec3)
      requires IsSqrt(sqrt) && Len(sqrt) != 0.0
      ensures r.Len(sqrt) == 1.0
      ensures r.Scale(Len(sqrt)) == this
    {
      var len := Len(sqrt);
      LenDivided3(this, len, sqrt);
      DividedScale3(this, len);
      DivSelf(len);
      Vec3(x / len, y / len, z / len)
    }

    /** `dist(other)`: the length of the difference. */
    function Dist(other: Vec3, sqrt: real -> real): real
      requires IsSqrt(sqrt)
    {
      Sub(other).Len(sqrt)
    }

    /** `dot(other)`. */
    function Dot(other: Vec3): real
    {
      x * other.x + y * other.y + z * other.z
    }

    /** `project(other)`: the component along the unit vector of `other`. */
    function Project(other: Vec3, sqrt: real -> real): Vec3
      requires IsSqrt(sqrt) && other.Len(sqrt) != 0.0
    {
      other.Normal(sqrt).Scale(Dot(other.Normal(sqrt)))
    }

    /** `deviation(dir)`: the length of what `project` leaves over. */
    function Deviation(dir: Vec3, sqrt: real -> real): real
      requires IsSqrt(sqrt) && dir.Len(sqrt) != 0.0
    {
      Sub(Project(dir, sqrt)).Len(sqrt)
    }

    /** The static `clamp(v, limit)`: scale the vector down to length `limit` if it is longer. */
    function Clamp(limit: real, sqrt: real -> real): (r: Vec3)
      requires IsSqrt(sqrt) && 0.0 < limit
      ensures r.Len(sqrt) <= limit
      ensures Len(sqrt) <= limit ==> r == this
      ensures limit < Len(sqrt) ==> r.Len(sqrt) == limit
    {
      var div := Len(sqrt);
      if div == 0.0 then
        ZeroLen3(this, sqrt);
        Vec3(0.0, 0.0, 0.0)
      else if div <= limit then
        this
      else
        var d := div / limit;
        LenDivided3(this, d, sqrt);
        Vec3(x / d, y / d, z / d)
    }

    /** Unary minus, as a value (the C++ operator also overwrites its operand: see MutableVec3.Negate). */
    function Neg(): Vec3
    {
      Vec3(-x, -y, -z)
    }

    function Add(other: Vec3): Vec3
    {
      Vec3(x + other.x, y + other.y, z + other.z)
    }

    function Sub(other: Vec3): Vec3
    {
      Vec3(x - other.x, y - other.y, z - other.z)
    }

    /** Component-wise product (`operator*` of two vectors). */
    function Mul(other: Vec3): Vec3
    {
      Vec3(x * other.x, y * other.y, z * other.z)
    }

    /** Component-wise quotient (`operator/` of two vectors). */
    function Div(other: Vec3): Vec3
      requires other.x != 0.0 && other.y != 0.0 && other.z != 0.0
    {
      Vec3(x / other.x, y / other.y, z / other.z)
    }

    /** `v * s` and `s * v`. */
    function Scale(s: real): Vec3
    {
      Vec3(x * s, y * s, z * s)
    }

    /** `v / s`. */
    function DivBy(s: real): Vec3
      requires s != 0.0
    {
      Vec3(x / s, y / s, z / s)
    }
  }

  /** `vec3()`: the default-constructed vector. */
  const Zero3: Vec3 := Vec3(0.0, 0.0, 0.0)

  lemma ZeroLen3(v: Vec3, sqrt: real -> real)
    requires IsSqrt(sqrt) && v.Len(sqrt) == 0.0
    ensures v == Zero3
  {
    var xx, yy, zz := v.x * v.x, v.y * v.y, v.z * v.z;
    assert xx + yy + zz == 0.0;
    SquareZero(v.x);
    SquareZero(v.y);
    SquareZero(v.z);
  }

  /** Dividing every component by `d > 0` divides the length by `d`. */
  lemma LenDivided3(v: Vec3, d: real, sqrt: real -> real)
    requires IsSqrt(sqrt) && 0.0 < d
    ensures Vec3(v.x / d, v.y / d, v.z / d).Len(sqrt) == v.Len(sqrt) / d
  {
    var u := Vec3(v.x / d, v.y / d, v.z / d);
    SqLenDivided3(v, d);
    SqrtDivided(sqrt, u.SqLen(), v.SqLen(), d);
  }

  /** Dividing every component by `d` divides the squared length by `d * d`. */
  lemma SqLenDivided3(v: Vec3, d: real)
    requires d != 0.0
    ensures Vec3(v.x / d, v.y / d, v.z / d).SqLen() * (d * d) == v.SqLen()
    ensures 0.0 <= v.SqLen()
  {
    QuotientSquares(v.x, v.y, v.z, d);
    SquaresNonnegative(v.x, v.y, v.z);
  }

  /** Multiplying back by `d` undoes the division of every component. */
  lemma DividedScale3(v: Vec3, d: real)
    requires d != 0.0
    ensures Vec3(v.x / d, v.y / d, v.z / d).Scale(d) == v
  {
    DivTimes(v.x, d);
    DivTimes(v.y, d);
    DivTimes(v.z, d);
  }

  // ---------------------------------------------------------------------
  // Properties of the pure members

  /** The clamp leaves the zero vector alone. */
  lemma ClampZero(limit: real, sqrt: real -> real)
    requires IsSqrt(sqrt) && 0.0 < limit
    ensures Zero3.Clamp(limit, sqrt) == Zero3
  {
    SqrtUnique(sqrt, 0.0, 0.0);
  }

  /** A vector longer than the limit is clamped along its own direction: scaling back by `len / limit` recovers it. */
  lemma ClampDirection2(v: Vec2, limit: real, sqrt: real -> real)
    requires IsSqrt(sqrt) && 0.0 < limit < v.Len(sqrt)
    ensures v.Clamp(limit, sqrt).Scale(v.Len(sqrt) / limit) == v
  {
    DividedScale2(v, v.Len(sqrt) / limit);
  }

  /** A vector longer than the limit is clamped along its own direction: scaling back by `len / limit` recovers it. */
  lemma ClampDirection3(v: Vec3, limit: real, sqrt: real -> real)
    requires IsSqrt(sqrt) && 0.0 < limit < v.Len(sqrt)
    ensures v.Clamp(limit, sqrt).Scale(v.Len(sqrt) / limit) == v
  {
    DividedScale3(v, v.Len(sqrt) / limit);
  }

  lemma DotSymmetric2(a: Vec2, b: Vec2)
    ensures a.Dot(b) == b.Dot(a)
  {
  }

  lemma DotSymmetric3(a: Vec3, b: Vec3)
    ensures a.Dot(b) == b.Dot(a)
  {
  }

  /** `dist(a, b)` is the length of `a - b` and does not depend on the order of its arguments. */
  lemma DistSymmetric2(a: Vec2, b: Vec2, sqrt: real -> real)
    requires IsSqrt(sqrt)
    ensures a.Dist(b, sqrt) == a.Sub(b).Len(sqrt) == b.Dist(a, sqrt)
  {
    assert a.Sub(b).SqLen() == b.Sub(a).SqLen();
  }

  /** `dist(a, b)` is the length of `a - b` and does not depend on the order of its arguments. */
  lemma DistSymmetric3(a: Vec3, b: Vec3, sqrt: real -> real)
    requires IsSqrt(sqrt)
    ensures a.Dist(b, sqrt) == a.Sub(b).Len(sqrt) == b.Dist(a, sqrt)
  {
    assert a.Sub(b).SqLen() == b.Sub(a).SqLen();
  }

  lemma DotScale3(a: Vec3, s: real, b: Vec3)
    ensures a.Scale(s).Dot(b) == s * a.Dot(b)
  {
    var p, q, r := a.x * b.x, a.y * b.y, a.z * b.z;
    assert a.Scale(s).Dot(b) == s * p + s * q + s * r;
  }

  lemma DotSub3(a: Vec3, c: Vec3, b: Vec3)
    ensures a.Sub(c).Dot(b) == a.Dot(b) - c.Dot(b)
  {
  }

  /** A unit vector has squared length one. */
  lemma UnitSqLen3(n: Vec3, sqrt: real -> real)
    requires IsSqrt(sqrt) && n.Len(sqrt) == 1.0
    ensures n.Dot(n) == 1.0
  {
  }

  /** vec3 `project`: what it leaves over is orthogonal to the direction. */
  lemma ProjectResidualOrthogonal3(v: Vec3, o: Vec3, sqrt: real -> real)
    requires IsSqrt(sqrt) && o.Len(sqrt) != 0.0
    ensures v.Sub(v.Project(o, sqrt)).Dot(o) == 0.0
  {
    var n, l := o.Normal(sqrt), o.Len(sqrt);
    var k := v.Dot(n);
    UnitSqLen3(n, sqrt);
    var p := n.Scale(k);
    var w := v.Sub(p);
    DotSub3(v, p, n);
    DotScale3(n, k, n);
    assert w.Dot(n) == 0.0;
    DotScale3(n, l, w);
    DotSymmetric3(n, w);
    DotSymmetric3(o, w);
  }

  /** vec3 `project` is idempotent: projecting a projection changes nothing. */
  lemma ProjectIdempotent3(v: Vec3, o: Vec3, sqrt: real -> real)
    requires IsSqrt(sqrt) && o.Len(sqrt) != 0.0
    ensures v.Project(o, sqrt).Project(o, sqrt) == v.Project(o, sqrt)
  {
    var n := o.Normal(sqrt);
    var k := v.Dot(n);
    UnitSqLen3(n, sqrt);
    DotScale3(n, k, n);
  }

  /** vec3 `deviation`: the squared deviation and the squared projected length add up to the squared length. */
  lemma DeviationPythagoras3(v: Vec3, d: Vec3, sqrt: real -> real)
    requires IsSqrt(sqrt) && d.Len(sqrt) != 0.0
    ensures var k := v.Dot(d.Normal(sqrt));
      v.Deviation(d, sqrt) * v.Deviation(d, sqrt) + k * k == v.SqLen()
  {
    var n := d.Normal(sqrt);
    UnitSqLen3(n, sqrt);
    ResidualSqLen3(v, n);
    var w := v.Sub(v.Project(d, sqrt));
    assert w == v.Sub(n.Scale(v.Dot(n)));
    assert v.Deviation(d, sqrt) == w.Len(sqrt);
  }

  /** Removing the component along a unit vector `n` takes its square off the squared length. */
  lemma ResidualSqLen3(v: Vec3, n: Vec3)
    requires n.Dot(n) == 1.0
    ensures var k := v.Dot(n);
      v.Sub(n.Scale(k)).SqLen() + k * k == v.SqLen()
  {
    var k := v.Dot(n);
    var p := n.Scale(k);
    var w := v.Sub(p);
    DotSub3(v, p, n);
    DotScale3(n, k, n);
    assert w.Dot(n) == 0.0;
    DotSub3(v, p, w);
    DotSub3(v, p, v);
    DotSymmetric3(v, w);
    DotScale3(n, k, v);
    DotSymmetric3(n, v);
    DotScale3(n, k, w);
    DotSymmetric3(n, w);
    assert w.Dot(w) == v.Dot(v) - k * k;
    assert w.SqLen() == w.Dot(w);
    assert v.SqLen() == v.Dot(v);
  }

  /** vec2 `project` is the true projection onto the unit direction, scaled by the length of `other`. */
  lemma Project2Unnormalised(v: Vec2, o: Vec2, sqrt: real -> real)
    requires IsSqrt(sqrt) && o.Len(sqrt) != 0.0
    ensures var n := o.Normal(sqrt);
      v.Project(o, sqrt) == n.Scale(v.Dot(n)).Scale(o.Len(sqrt))
  {
    var n, l := o.Normal(sqrt), o.Len(sqrt);
    assert o == n.Scale(l);
    var d := v.Dot(n);
    assert v.Dot(o) == d * l by {
      assert v.Dot(o) == v.x * (n.x * l) + v.y * (n.y * l);
    }
    assert n.Scale(d).Scale(l) == n.Scale(d * l) by {
      assert (n.x * d) * l == n.x * (d * l);
      assert (n.y * d) * l == n.y * (d * l);
    }
  }

  lemma SubUndoesAdd2(a: Vec2, b: Vec2)
    ensures a.Add(b).Sub(b) == a && a.Add(b) == b.Add(a)
  {
  }

  lemma SubUndoesAdd3(a: Vec3, b: Vec3)
    ensures a.Add(b).Sub(b) == a && a.Add(b) == b.Add(a)
  {
  }

  lemma DivUndoesMul2(a: Vec2, b: Vec2)
    requires b.x != 0.0 && b.y != 0.0
    ensures a.Mul(b).Div(b) == a
  {
  }

  lemma DivUndoesMul3(a: Vec3, b: Vec3)
    requires b.x != 0.0 && b.y != 0.0 && b.z != 0.0
    ensures a.Mul(b).Div(b) == a
  {
  }

  lemma DivByUndoesScale2(a: Vec2, s: real)
    requires s != 0.0
    ensures a.Scale(s).DivBy(s) == a
  {
  }

  lemma DivByUndoesScale3(a: Vec3, s: real)
    requires s != 0.0
    ensures a.Scale(s).DivBy(s) == a
  {
  }

  lemma NegInvolutive2(a: Vec2)
    ensures a.Neg().Neg() == a && a.Add(a.Neg()) == Vec2(0.0, 0.0)
  {
  }

  lemma NegInvolutive3(a: Vec3)
    ensures a.Neg().Neg() == a && a.Add(a.Neg()) == Zero3
  {
  }

  // ---------------------------------------------------------------------
  // The members that change the object in place

  /** A `vec2` object; each member that assigns to `x` and `y` is specified by the pure function above. */
  class MutableVec2
  {
    var x: real
    var y: real

    constructor (v: Vec2)
      ensures Value() == v
    {
      x, y := v.x, v.y;
    }

    function Value(): Vec2
      reads this
    {
      Vec2(x, y)
    }

    /** `normalize()`; returns the new value, as the C++ member returns `*this`. */
    method Normalize(sqrt: real -> real) returns (self: Vec2)
      requires IsSqrt(sqrt) && Value().Len(sqrt) != 0.0
      modifies this
      ensures Value() == old(Value()).Normal(sqrt) && self == Value()
    {
      var len := Value().Len(sqrt);
      x, y := x / len, y / len;
      self := Value();
    }

    /** The in-place `clamp(limit)`: the same value as the static `clamp`. */
    method Clamp(limit: real, sqrt: real -> real) returns (self: Vec2)
      requires IsSqrt(sqrt) && 0.0 < limit
      modifies this
      ensures Value() == old(Value()).Clamp(limit, sqrt) && self == Value()
    {
      var div := Value().Len(sqrt);
      if div == 0.0 {
        x, y := 0.0, 0.0;
      } else if div > limit {
        div := div / limit;
        x, y := x / div, y / div;
      }
      self := Value();
    }

    /** Unary minus: negates the object itself and returns it. */
    method Negate() returns (self: Vec2)
      modifies this
      ensures Value() == old(Value()).Neg() && self == Value()
    {
      x, y := -x, -y;
      self := Value();
    }

    method AddAssign(other: Vec2) returns (self: Vec2)
      modifies this
      ensures Value() == old(Value()).Add(other) && self == Value()
    {
      x, y := x + other.x, y + other.y;
      self := Value();
    }

    method SubAssign(other: Vec2) returns (self: Vec2)
      modifies this
      ensures Value() == old(Value()).Sub(other) && self == Value()
    {
      x, y := x - other.x, y - other.y;
      self := Value();
    }

    method MulAssign(other: Vec2) returns (self: Vec2)
      modifies this
      ensures Value() == old(Value()).Mul(other) && self == Value()
    {
      x, y := x * other.x, y * other.y;
      self := Value();
    }

    method DivAssign(other: Vec2) returns (self: Vec2)
      requires other.x != 0.0 && other.y != 0.0
      modifies this
      ensures Value() == old(Value()).Div(other) && self == Value()
    {
      x, y := x / other.x, y / other.y;
      self := Value();
    }

    method ScaleAssign(s: real) returns (self: Vec2)
      modifies this
      ensures Value() == old(Value()).Scale(s) && self == Value()
    {
      x, y := x * s, y * s;
      self := Value();
    }

    method DivByAssign(s: real) returns (self: Vec2)
      requires s != 0.0
      modifies this
      ensures Value() == old(Value()).DivBy(s) && self == Value()
    {
      x, y := x / s, y / s;
      self := Value();
    }
  }

  /** A `vec3` object; each member that assigns to `x`, `y` and `z` is specified by the pure function above. */
  class MutableVec3
  {
    var x: real
    var y: real
    var z: real

    constructor (v: Vec3)
      ensures Value() == v
    {
      x, y, z := v.x, v.y, v.z;
    }

    function Value(): Vec3
      reads this
    {
      Vec3(x, y, z)
    }

    /** `normalize()`; returns the new value, as the C++ member returns `*this`. */
    method Normalize(sqrt: real -> real) returns (self: Vec3)
      requires IsSqrt(sqrt) && Value().Len(sqrt) != 0.0
      modifies this
      ensures Value() == old(Value()).Normal(sqrt) && self == Value()
    {
      var len := Value().Len(sqrt);
      x, y, z := x / len, y / len, z / len;
      self := Value();
    }

    /** The in-place `clamp(limit)`: the same value as the static `clamp`. */
    method Clamp(limit: real, sqrt: real -> real) returns (self: Vec3)
      requires IsSqrt(sqrt) && 0.0 < limit
      modifies this
      ensures Value() == old(Value()).Clamp(limit, sqrt) && self == Value()
    {
      var div := Value().Len(sqrt);
      if div == 0.0 {
        x, y, z := 0.0, 0.0, 0.0;
      } else if div > limit {
        div := div / limit;
        x, y, z := x / div, y / div, z / div;
      }
      self := Value();
    }

    /** Unary minus: negates the object itself and returns it. */
    method Negate() returns (self: Vec3)
      modifies this
      ensures Value() == old(Value()).Neg() && self == Value()
    {
      x, y, z := -x, -y, -z;
      self := Value();
    }

    method AddAssign(other: Vec3) returns (self: Vec3)
      modifies this
      ensures Value() == old(Value()).Add(other) && self == Value()
    {
      x, y, z := x + other.x, y + other.y, z + other.z;
      self := Value();
    }

    method SubAssign(other: Vec3) returns (self: Vec3)
      modifies this
      ensures Value() == old(Value()).Sub(other) && self == Value()
    {
      x, y, z := x - other.x, y - other.y, z - other.z;
      self := Value();
    }

    method MulAssign(other: Vec3) returns (self: Vec3)
      modifies this
      ensures Value() == old(Value()).Mul(other) && self == Value()
    {
      x, y, z := x * other.x, y * other.y, z * other.z;
      self := Value();
    }

    method DivAssign(other: Vec3) returns (self: Vec3)
      requires other.x != 0.0 && other.y != 0.0 && other.z != 0.0
      modifies this
      ensures Value() == old(Value()).Div(other) && self == Value()
    {
      x, y, z := x / other.x, y / other.y, z / other.z;
      self := Value();
    }

    method ScaleAssign(s: real) returns (self: Vec3)
      modifies this
      ensures Value() == old(Value()).Scale(s) && self == Value()
    {
      x, y, z := x * s, y * s, z * s;
      self := Value();
    }

    method DivByAssign(s: real) returns (self: Vec3)
      requires s != 0.0
      modifies this
      ensures Value() == old(Value()).DivBy(s) && self == Value()
    {
      x, y, z := x / s, y / s, z / s;
      self := Value();
    }
  }
}
