/** How a recorded collision moves its two objects apart. */
module Separation {
  import opened Physics

  /** `triad::normalize`, given the magnitude; dividing by zero yields `nan`. */
  function Normalize(v: Vec, magnitude: real, nan: Vec): Vec {
    if magnitude == 0.0 then nan else v.Over(magnitude)
  }

  /** The move that resolution makes when both objects survive; `range` is the
      distance between the centres. */
  function PushApart(a: Motion, b: Motion, range: real, nan: Vec): (Motion, Motion) {
    var adj := (a.radius + b.radius) - range;
    if adj > 0.0 then
      var half := adj / 2.0;
      var vec := Normalize(a.location.Sub(b.location), range, nan);
      (a.(location := a.location.Add(vec.Scale(half))), b.(location := b.location.Sub(vec.Scale(half))))
    else (a, b)
  }

  /** One axis: centres xa and xb end up minDist * u apart, u the unit vector's
      component, around the same midpoint. */
  lemma AxisApart(xa: real, xb: real, range: real, minDist: real, u: real, half: real, ya: real, yb: real)
    requires range > 0.0 && u == (xa - xb) / range && half == (minDist - range) / 2.0
    requires ya == xa + u * half && yb == xb - u * half
    ensures u * range == xa - xb
    ensures ya - yb == minDist * u && ya + yb == xa + xb
  {
    assert u * range == xa - xb;
    assert ya - yb == u * range + 2.0 * (u * half);
    assert 2.0 * (u * half) == u * (minDist - range);
    assert u * (minDist - range) == u * minDist - u * range;
  }

  lemma ScaledSquare(d: real, u: real, range: real, r2: real)
    requires d == u * range && r2 == range * range
    ensures d * d == u * u * r2
  {
    assert d * d == (u * range) * (u * range);
  }

  /** The components of a unit vector. */
  lemma UnitLength(ux: real, uy: real, uz: real, range: real, d: Vec)
    requires range > 0.0 && d.x == ux * range && d.y == uy * range && d.z == uz * range
    requires d.Dot(d) == range * range
    ensures ux * ux + uy * uy + uz * uz == 1.0
  {
    var n := ux * ux + uy * uy + uz * uz;
    var r2 := Square(range);
    ScaledSquare(d.x, ux, range, r2);
    ScaledSquare(d.y, uy, range, r2);
    ScaledSquare(d.z, uz, range, r2);
    assert n * r2 == ux * ux * r2 + uy * uy * r2 + uz * uz * r2;
    assert (n - 1.0) * r2 == 0.0;
    CancelFactor(n - 1.0, r2);
  }

  lemma CancelFactor(x: real, k: real)
    requires k > 0.0 && x * k == 0.0
    ensures x == 0.0
  {
    MulSign(x, k);
  }

  lemma ScaledLength(m: real, u: Vec, w: Vec)
    requires u.x * u.x + u.y * u.y + u.z * u.z == 1.0 && w == Vec(m * u.x, m * u.y, m * u.z)
    ensures w.Dot(w) == m * m
  {
    assert (m * u.x) * (m * u.x) == m * m * (u.x * u.x);
    assert (m * u.y) * (m * u.y) == m * m * (u.y * u.y);
    assert (m * u.z) * (m * u.z) == m * m * (u.z * u.z);
    assert m * m * (u.x * u.x) + m * m * (u.y * u.y) + m * m * (u.z * u.z)
           == m * m * (u.x * u.x + u.y * u.y + u.z * u.z);
  }

  /** The two centres lie on the old line, around the old midpoint. */
  lemma ApartVector(a: Motion, b: Motion, range: real, nan: Vec)
    requires 0.0 < range < a.radius + b.radius
    ensures var (a2, b2) := PushApart(a, b, range, nan);
            var m, d := a.radius + b.radius, a.location.Sub(b.location);
            var u := d.Over(range);
            && d.x == u.x * range && d.y == u.y * range && d.z == u.z * range
            && a2.location.Add(b2.location) == a.location.Add(b.location)
            && a2.location.Sub(b2.location) == Vec(m * u.x, m * u.y, m * u.z)
  {
    var (a2, b2) := PushApart(a, b, range, nan);
    var m := a.radius + b.radius;
    var half := (m - range) / 2.0;
    var u := a.location.Sub(b.location).Over(range);
    AxisApart(a.location.x, b.location.x, range, m, u.x, half, a2.location.x, b2.location.x);
    AxisApart(a.location.y, b.location.y, range, m, u.y, half, a2.location.y, b2.location.y);
    AxisApart(a.location.z, b.location.z, range, m, u.z, half, a2.location.z, b2.location.z);
  }

  /** Overlapping objects with distinct centres end up exactly the sum of their
      radii apart, around the same midpoint, on the same line and the same side;
      nothing but their locations changes. */
  lemma OverlapResolved(a: Motion, b: Motion, range: real, nan: Vec)
    requires range > 0.0 && range * range == DistSq(a.location, b.location)
    requires range < a.radius + b.radius
    ensures var (a2, b2) := PushApart(a, b, range, nan);
            var m := a.radius + b.radius;
            var u := a.location.Sub(b.location).Over(range);
            && a2 == a.(location := a2.location) && b2 == b.(location := b2.location)
            && DistSq(a2.location, b2.location) == m * m
            && a2.location.Add(b2.location) == a.location.Add(b.location)
            && a2.location.Sub(b2.location) == Vec(m * u.x, m * u.y, m * u.z)
  {
    var (a2, b2) := PushApart(a, b, range, nan);
    var d := a.location.Sub(b.location);
    var u := d.Over(range);
    ApartVector(a, b, range, nan);
    UnitLength(u.x, u.y, u.z, range, d);
    ScaledLength(a.radius + b.radius, u, a2.location.Sub(b2.location));
  }
}
