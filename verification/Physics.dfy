/** Vectors, the motion of an object, its integration step and the swept-sphere
    collision test, with reals for the source's floats. */
module Physics {
  datatype Vec = Vec(x: real, y: real, z: real) {
    function Add(o: Vec): Vec { Vec(x + o.x, y + o.y, z + o.z) }
    function Sub(o: Vec): Vec { Vec(x - o.x, y - o.y, z - o.z) }
    function Scale(k: real): Vec { Vec(x * k, y * k, z * k) }
    function Over(k: real): Vec
      requires k != 0.0
    {
      Vec(x / k, y / k, z / k)
    }
    function Dot(o: Vec): real { x * o.x + y * o.y + z * o.z }
  }

  const ZERO := Vec(0.0, 0.0, 0.0)

  /** The square of `triad::range`. */
  function DistSq(a: Vec, b: Vec): real { a.Sub(b).Dot(a.Sub(b)) }

  /** The part of a `base_object` that effectors read and write. */
  datatype Motion = Motion(
    location: Vec, velocity: Vec, mass: real, radius: real,
    force: Vec, accelMod: Vec, massMod: real)

  /** An effector's `tick`: the object it leaves, and whether the object dies. */
  type Effector = (Motion, real) -> (Motion, bool)

  /** The effectors of a list one after the other; the object dies if any says so. */
  function RunEffectors(es: seq<Effector>, m: Motion, q: real): (Motion, bool) {
    if es == [] then (m, false)
    else
      var (m1, k1) := RunEffectors(es[..|es| - 1], m, q);
      var (m2, k2) := es[|es| - 1](m1, q);
      (m2, k1 || k2)
  }

  function Reset(m: Motion): Motion { m.(accelMod := ZERO, force := ZERO, massMod := 0.0) }

  /** `base_object::tick` without rotation. */
  function TickMotion(pre: seq<Effector>, m: Motion, q: real): (Motion, bool) {
    var (m1, kill) := RunEffectors(pre, Reset(m), q);
    var m2 := m1.(mass := m1.mass + m1.massMod);
    if m2.mass <= 0.0 then (m2, true)
    else
      var a := m2.force.Over(m2.mass);
      (m2.(velocity := m2.velocity.Add(a.Add(m2.accelMod).Scale(q))), kill)
  }

  /** `base_object::apply` without rotation. */
  function ApplyMotion(post: seq<Effector>, m: Motion, q: real): (Motion, bool) {
    RunEffectors(post, m.(location := m.location.Add(m.velocity.Scale(q))), q)
  }

  // ----- the collision test -----

  lemma MulPositive(x: real, y: real)
    requires x > 0.0 && y > 0.0
    ensures x * y > 0.0
  {
  }

  lemma MulLe(x: real, y: real, k: real)
    requires x <= y && k >= 0.0
    ensures x * k <= y * k
  {
  }

  /** A positive factor keeps the sign. */
  lemma MulSign(x: real, k: real)
    requires k > 0.0
    ensures (x * k > 0.0 <==> x > 0.0) && (x * k == 0.0 <==> x == 0.0)
  {
    if x > 0.0 { MulPositive(x, k); }
    if x < 0.0 { MulPositive(-x, k); }
  }

  lemma ProductPositive(x: real, y: real, p: real)
    requires x > 0.0 && y > 0.0 && p == x * y
    ensures p > 0.0
  {
  }

  /** A square, named, so that its sign is not lost in the arithmetic. */
  lemma Square(x: real) returns (s: real)
    ensures s == x * x && s >= 0.0 && (x != 0.0 ==> s > 0.0)
  {
    s := x * x;
    if x > 0.0 { ProductPositive(x, x, s); }
    if x < 0.0 { ProductPositive(-x, -x, s); }
  }

  lemma SumOfSquares(x: real, y: real, z: real, d: real)
    requires d == x * x + y * y + z * z
    ensures d >= 0.0 && (x != 0.0 || y != 0.0 || z != 0.0 ==> d > 0.0)
  {
    var a := Square(x);
    var b := Square(y);
    var c := Square(z);
  }

  lemma DotSelf(v: Vec)
    ensures v.Dot(v) >= 0.0 && (v != ZERO ==> v.Dot(v) > 0.0)
  {
    SumOfSquares(v.x, v.y, v.z, v.Dot(v));
  }

  lemma DotWithZero(p: Vec)
    ensures p.Dot(ZERO) == 0.0
  {
  }

  lemma ApproachMoves(p: Vec, v: Vec)
    requires p.Dot(v) < 0.0
    ensures v.Dot(v) > 0.0
  {
    DotWithZero(p);
    DotSelf(v);
  }

  /** Squared distance minus squared contact distance, and the two coefficients
      of its change over one quantum. */
  function PP(a: Motion, b: Motion): real {
    var r := a.radius + b.radius;
    DistSq(b.location, a.location) - r * r
  }
  function PV(a: Motion, b: Motion, q: real): real {
    b.location.Sub(a.location).Dot(b.velocity.Sub(a.velocity).Scale(q))
  }
  function VV(a: Motion, b: Motion, q: real): real {
    var v := b.velocity.Sub(a.velocity).Scale(q);
    v.Dot(v)
  }

  /** `base_object::check_collision`, branch by branch. */
  function CheckCollision(a: Motion, b: Motion, q: real): (hit: bool) {
    var pp, pv, vv := PP(a, b), PV(a, b, q), VV(a, b, q);
    if pp <= 0.0 then true
    else if pv >= 0.0 then false
    else if pv + vv <= 0.0 && vv + 2.0 * pv + pp >= 0.0 then false
    else
      ApproachMoves(b.location.Sub(a.location), b.velocity.Sub(a.velocity).Scale(q));
      var minTime := pv / vv;
      pp + pv * minTime > 0.0
  }

  /** Where an object is after the fraction t of a quantum. */
  function Position(m: Motion, q: real, t: real): Vec {
    m.location.Add(m.velocity.Scale(t * q))
  }

  /** Squared distance minus squared contact distance at the fraction t. */
  function Gap(a: Motion, b: Motion, q: real, t: real): real {
    DistSq(Position(b, q, t), Position(a, q, t)) - (a.radius + b.radius) * (a.radius + b.radius)
  }

  lemma AxisSquare(xa: real, xb: real, va: real, vb: real, q: real, t: real)
    ensures var d := (xb + vb * (t * q)) - (xa + va * (t * q));
            var p, v := xb - xa, (vb - va) * q;
            d == p + t * v && d * d == p * p + 2.0 * t * (p * v) + t * t * (v * v)
  {
    var d := (xb + vb * (t * q)) - (xa + va * (t * q));
    var p, v := xb - xa, (vb - va) * q;
    assert d == p + t * v;
    assert (p + t * v) * (p + t * v) == p * p + 2.0 * t * (p * v) + t * t * (v * v);
  }

  /** The gap is a quadratic in t with exactly the test's coefficients. */
  lemma GapIsQuadratic(a: Motion, b: Motion, q: real, t: real)
    ensures Gap(a, b, q, t) == PP(a, b) + 2.0 * t * PV(a, b, q) + t * t * VV(a, b, q)
  {
    AxisSquare(a.location.x, b.location.x, a.velocity.x, b.velocity.x, q, t);
    AxisSquare(a.location.y, b.location.y, a.velocity.y, b.velocity.y, q, t);
    AxisSquare(a.location.z, b.location.z, a.velocity.z, b.velocity.z, q, t);
  }
}
