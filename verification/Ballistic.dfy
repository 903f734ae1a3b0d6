/** Many turns under a constant push: the closed form of the integration, and its
    exact distance from the true trajectory. */
module Ballistic {
  import opened Physics

  /** A constant force, and `norm_gravity`, which adds to the acceleration. */
  function Thrust(f: Vec): Effector {
    (m: Motion, q: real) => (m.(force := m.force.Add(f)), false)
  }

  function Gravity(g: Vec): Effector {
    (m: Motion, q: real) => (m.(accelMod := m.accelMod.Add(g)), false)
  }

  /** Applied to an object whose accumulators are clear, the effectors leave
      exactly this force and acceleration behind and nothing else. */
  ghost predicate SteadyPush(pre: seq<Effector>, force: Vec, accel: Vec) {
    forall m: Motion, q: real ::
      RunEffectors(pre, Reset(m), q) == (Reset(m).(force := force, accelMod := accel), false)
  }

  lemma ThrustAndGravityAreSteady(f: Vec, g: Vec)
    ensures SteadyPush([Thrust(f), Gravity(g)], f, g)
  {
    var es := [Thrust(f), Gravity(g)];
    forall m: Motion, q: real
      ensures RunEffectors(es, Reset(m), q) == (Reset(m).(force := f, accelMod := g), false)
    {
      assert es[..1] == [Thrust(f)];
      assert es[..1][..0] == [];
      assert RunEffectors(es[..1], Reset(m), q) == Thrust(f)(Reset(m), q);
      assert ZERO.Add(f) == f && ZERO.Add(g) == g;
    }
  }

  /** n turns of `tick` and `apply` with no post-effectors; false once a turn says
      the object dies. */
  function Turns(n: nat, pre: seq<Effector>, m: Motion, q: real): (Motion, bool) {
    if n == 0 then (m, false)
    else
      var (m1, k1) := Turns(n - 1, pre, m, q);
      var (m2, k2) := TickMotion(pre, m1, q);
      var (m3, k3) := ApplyMotion([], m2, q);
      (m3, k1 || k2 || k3)
  }

  /** Velocity and position after n turns, by recurrence. */
  function VelocityAfter(n: nat, v0: Vec, a: Vec, q: real): Vec {
    if n == 0 then v0 else VelocityAfter(n - 1, v0, a, q).Add(a.Scale(q))
  }

  function LocationAfter(n: nat, x0: Vec, v0: Vec, a: Vec, q: real): Vec {
    if n == 0 then x0 else LocationAfter(n - 1, x0, v0, a, q).Add(VelocityAfter(n, v0, a, q).Scale(q))
  }

  /** One turn under a steady push. */
  lemma SteadyTurn(pre: seq<Effector>, force: Vec, accel: Vec, m: Motion, q: real)
    requires SteadyPush(pre, force, accel) && m.mass > 0.0
    ensures var (m2, k2) := TickMotion(pre, m, q);
            var (m3, k3) := ApplyMotion([], m2, q);
            && !k2 && !k3 && m3.mass == m.mass
            && m3.velocity == m.velocity.Add(force.Over(m.mass).Add(accel).Scale(q))
            && m3.location == m.location.Add(m3.velocity.Scale(q))
  {
    assert RunEffectors(pre, Reset(m), q) == (Reset(m).(force := force, accelMod := accel), false);
    assert m.mass + 0.0 == m.mass;
  }

  /** The engine follows the recurrence and the object lives.  It rests on `tick`
      clearing the accumulators that the previous turn filled. */
  lemma {:induction false} TurnsFollow(n: nat, pre: seq<Effector>, force: Vec, accel: Vec, m: Motion, q: real, a: Vec)
    requires SteadyPush(pre, force, accel) && m.mass > 0.0 && a == force.Over(m.mass).Add(accel)
    ensures var (end, dead) := Turns(n, pre, m, q);
            && !dead && end.mass == m.mass
            && end.velocity == VelocityAfter(n, m.velocity, a, q)
            && end.location == LocationAfter(n, m.location, m.velocity, a, q)
  {
    if n > 0 {
      TurnsFollow(n - 1, pre, force, accel, m, q, a);
      SteadyTurn(pre, force, accel, Turns(n - 1, pre, m, q).0, q);
    }
  }

  datatype Axis = X | Y | Z

  /** The component of a vector along one axis. */
  function Along(v: Vec, i: Axis): real {
    match i case X => v.x case Y => v.y case Z => v.z
  }

  /** The same recurrence on one axis. */
  function SpeedAfter(n: nat, v0: real, a: real, q: real): real {
    if n == 0 then v0 else SpeedAfter(n - 1, v0, a, q) + a * q
  }

  function PlaceAfter(n: nat, x0: real, v0: real, a: real, q: real): real {
    if n == 0 then x0 else PlaceAfter(n - 1, x0, v0, a, q) + SpeedAfter(n, v0, a, q) * q
  }

  lemma AddAlong(u: Vec, v: Vec, w: Vec, q: real, i: Axis)
    requires u == v.Add(w.Scale(q))
    ensures Along(u, i) == Along(v, i) + Along(w, i) * q
  {
  }

  lemma {:induction false} SpeedAlong(n: nat, v0: Vec, a: Vec, q: real, i: Axis)
    ensures Along(VelocityAfter(n, v0, a, q), i) == SpeedAfter(n, Along(v0, i), Along(a, i), q)
  {
    if n > 0 {
      SpeedAlong(n - 1, v0, a, q, i);
      AddAlong(VelocityAfter(n, v0, a, q), VelocityAfter(n - 1, v0, a, q), a, q, i);
    }
  }

  lemma {:induction false} PlaceAlong(n: nat, x0: Vec, v0: Vec, a: Vec, q: real, i: Axis)
    ensures Along(LocationAfter(n, x0, v0, a, q), i)
            == PlaceAfter(n, Along(x0, i), Along(v0, i), Along(a, i), q)
  {
    if n > 0 {
      PlaceAlong(n - 1, x0, v0, a, q, i);
      SpeedAlong(n, v0, a, q, i);
      AddAlong(LocationAfter(n, x0, v0, a, q), LocationAfter(n - 1, x0, v0, a, q), VelocityAfter(n, v0, a, q), q, i);
    }
  }

  lemma {:induction false} ClosedSpeed(n: nat, k: real, v0: real, a: real, q: real)
    requires k == n as real
    ensures SpeedAfter(n, v0, a, q) == v0 + k * q * a
  {
    if n > 0 {
      ClosedSpeed(n - 1, k - 1.0, v0, a, q);
      assert k * q * a == (k - 1.0) * q * a + a * q;
    }
  }

  lemma {:induction false} ClosedPlace(n: nat, k: real, x0: real, v0: real, a: real, q: real)
    requires k == n as real
    ensures PlaceAfter(n, x0, v0, a, q) == x0 + k * q * v0 + q * q * a * (k * (k + 1.0) / 2.0)
  {
    if n > 0 {
      var j := k - 1.0;
      ClosedPlace(n - 1, j, x0, v0, a, q);
      ClosedSpeed(n, k, v0, a, q);
      LocationStep(k, j, x0, v0, a, q, PlaceAfter(n - 1, x0, v0, a, q), SpeedAfter(n, v0, a, q),
                   PlaceAfter(n, x0, v0, a, q));
    }
  }

  lemma LocationStep(k: real, j: real, x0: real, v0: real, a: real, q: real, xj: real, vk: real, xk: real)
    requires k == j + 1.0 && xj == x0 + j * q * v0 + q * q * a * (j * (j + 1.0) / 2.0)
    requires vk == v0 + k * q * a && xk == xj + vk * q
    ensures xk == x0 + k * q * v0 + q * q * a * (k * (k + 1.0) / 2.0)
  {
    assert k * (k + 1.0) / 2.0 == j * (j + 1.0) / 2.0 + k;
    assert q * q * a * (j * (j + 1.0) / 2.0 + k) == q * q * a * (j * (j + 1.0) / 2.0) + (k * q * a) * q;
    assert k * q * v0 == j * q * v0 + v0 * q;
    assert vk * q == v0 * q + (k * q * a) * q;
  }

  /** Constant force and gravity on positive mass: along every axis, n turns of
      length q give velocity v0 + nqA and position x0 + nq v0 + q^2 A n(n+1)/2, and
      the object lives. */
  lemma BallisticTurns(
      n: nat, k: real, pre: seq<Effector>, force: Vec, accel: Vec, m: Motion, q: real, a: Vec,
      i: Axis, vi: real, ai: real)
    requires SteadyPush(pre, force, accel) && m.mass > 0.0 && a == force.Over(m.mass).Add(accel)
    requires k == n as real && ai == Along(a, i) && vi == Along(m.velocity, i)
    ensures var (end, dead) := Turns(n, pre, m, q);
            && !dead
            && Along(end.velocity, i) == vi + k * q * ai
            && Along(end.location, i) == Along(m.location, i) + k * q * vi + q * q * ai * (k * (k + 1.0) / 2.0)
  {
    TurnsFollow(n, pre, force, accel, m, q, a);
    SpeedAlong(n, m.velocity, a, q, i);
    PlaceAlong(n, m.location, m.velocity, a, q, i);
    ClosedSpeed(n, k, vi, ai, q);
    ClosedPlace(n, k, Along(m.location, i), vi, ai, q);
  }

  lemma Drift(x: real, x0: real, v0: real, a: real, q: real, k: real, time: real)
    requires time == k * q && x == x0 + k * q * v0 + q * q * a * (k * (k + 1.0) / 2.0)
    ensures x == x0 + time * v0 + a * (time * time) / 2.0 + a * q * time / 2.0
  {
    assert q * q * a * (k * (k + 1.0) / 2.0) == a * (time * time) / 2.0 + a * q * time / 2.0;
  }

  /** The simulated position x after the time T = nq is off the true one,
      x0 + T v0 + A T^2 / 2, by exactly A q T / 2. */
  lemma DriftIsLinear(
      n: nat, k: real, time: real, pre: seq<Effector>, force: Vec, accel: Vec, m: Motion, q: real, a: Vec,
      i: Axis, x0: real, vi: real, ai: real, x: real)
    requires SteadyPush(pre, force, accel) && m.mass > 0.0 && a == force.Over(m.mass).Add(accel)
    requires k == n as real && time == k * q
    requires ai == Along(a, i) && vi == Along(m.velocity, i) && x0 == Along(m.location, i)
    requires x == Along(Turns(n, pre, m, q).0.location, i)
    ensures x == x0 + time * vi + ai * (time * time) / 2.0 + ai * q * time / 2.0
  {
    BallisticTurns(n, k, pre, force, accel, m, q, a, i, vi, ai);
    Drift(x, x0, vi, ai, q, k, time);
  }
}
