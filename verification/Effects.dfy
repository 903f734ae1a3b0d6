/** What one turn of an object does, told by the states its effectors leave one after
    the other: the verdict, the order, and the laws of motion. */
module Effects {
  import opened Physics
  import opened Ballistic

  /** ms are the states before, between and after the effectors, in their order. */
  ghost predicate Trace(es: seq<Effector>, ms: seq<Motion>, q: real) {
    |ms| == |es| + 1 && forall i :: 0 <= i < |es| ==> ms[i + 1] == es[i](ms[i], q).0
  }

  /** Some effector, on the state it finds, says that the object dies. */
  ghost predicate SomeKills(es: seq<Effector>, ms: seq<Motion>, q: real)
    requires Trace(es, ms, q)
  {
    exists i :: 0 <= i < |es| && es[i](ms[i], q).1
  }

  lemma TracePrefix(es: seq<Effector>, ms: seq<Motion>, q: real)
    requires es != [] && Trace(es, ms, q)
    ensures var n := |es| - 1;
      && Trace(es[..n], ms[..n + 1], q)
      && (SomeKills(es, ms, q) <==> SomeKills(es[..n], ms[..n + 1], q) || es[n](ms[n], q).1)
  {
    var n := |es| - 1;
    if SomeKills(es, ms, q) && !es[n](ms[n], q).1 {
      var i :| 0 <= i < |es| && es[i](ms[i], q).1;
      assert es[..n][i](ms[..n + 1][i], q).1;
    }
    if SomeKills(es[..n], ms[..n + 1], q) {
      var i :| 0 <= i < n && es[..n][i](ms[..n + 1][i], q).1;
      assert es[i](ms[i], q).1;
    }
  }

  /** Every effector runs, in order, on what the one before left; the object dies if
      and only if one of them says so. */
  lemma {:induction false} EffectorsRun(es: seq<Effector>, ms: seq<Motion>, q: real)
    requires Trace(es, ms, q)
    ensures RunEffectors(es, ms[0], q) == (ms[|es|], SomeKills(es, ms, q))
    decreases |es|
  {
    if es != [] {
      var n := |es| - 1;
      TracePrefix(es, ms, q);
      EffectorsRun(es[..n], ms[..n + 1], q);
    }
  }

  /** `apply`: the object moves first, then the post-effectors see it where it is. */
  lemma ApplyLaw(post: seq<Effector>, m: Motion, ms: seq<Motion>, q: real)
    requires Trace(post, ms, q) && ms[0] == m.(location := m.location.Add(m.velocity.Scale(q)))
    ensures ApplyMotion(post, m, q) == (ms[|post|], SomeKills(post, ms, q))
  {
    EffectorsRun(post, ms, q);
  }

  /** The accumulators are clear when the first pre-effector runs. */
  ghost predicate Cleared(m: Motion, m0: Motion) {
    && m0.force == ZERO && m0.accelMod == ZERO && m0.massMod == 0.0
    && m0.location == m.location && m0.velocity == m.velocity && m0.mass == m.mass && m0.radius == m.radius
  }

  /** Momentum per axis: with `after` the velocity, mass times the change is the
      force and the mass times the extra acceleration, over the time q. */
  ghost predicate Newton(before: real, after: real, mass: real, force: real, accel: real, q: real) {
    mass * (after - before) == q * (force + mass * accel)
  }

  lemma NewtonAxis(v: real, mass: real, force: real, accel: real, q: real)
    requires mass > 0.0
    ensures Newton(v, v + (force / mass + accel) * q, mass, force, accel, q)
  {
    var a := force / mass;
    assert mass * a == force;
    assert mass * ((a + accel) * q) == q * (mass * a) + q * (mass * accel);
  }

  /** `tick`: the pre-effectors run on cleared accumulators; then the mass changes by
      what they asked for.  Without any mass left the object dies and keeps its
      velocity; otherwise it dies if and only if a pre-effector said so, and moves by
      Newton's law with its new mass.  Nothing else changes. */
  lemma TickLaw(pre: seq<Effector>, m: Motion, ms: seq<Motion>, q: real)
    requires Trace(pre, ms, q) && Cleared(m, ms[0])
    ensures var (end, kill) := TickMotion(pre, m, q);
            var last := ms[|pre|];
            && end == last.(mass := last.mass + last.massMod, velocity := end.velocity)
            && (kill <==> SomeKills(pre, ms, q) || end.mass <= 0.0)
            && (end.mass <= 0.0 ==> end.velocity == last.velocity)
            && (end.mass > 0.0 ==>
                  && Newton(last.velocity.x, end.velocity.x, end.mass, last.force.x, last.accelMod.x, q)
                  && Newton(last.velocity.y, end.velocity.y, end.mass, last.force.y, last.accelMod.y, q)
                  && Newton(last.velocity.z, end.velocity.z, end.mass, last.force.z, last.accelMod.z, q))
  {
    assert ms[0] == Reset(m);
    EffectorsRun(pre, ms, q);
    var last := ms[|pre|];
    var mass := last.mass + last.massMod;
    if mass > 0.0 {
      NewtonAxis(last.velocity.x, mass, last.force.x, last.accelMod.x, q);
      NewtonAxis(last.velocity.y, mass, last.force.y, last.accelMod.y, q);
      NewtonAxis(last.velocity.z, mass, last.force.z, last.accelMod.z, q);
    }
  }

  // ----- an engine that burns fuel -----

  /** It asks for the same loss of mass every turn. */
  function Burn(loss: real): Effector {
    (m: Motion, q: real) => (m.(massMod := m.massMod - loss), false)
  }

  lemma BurnTick(loss: real, m: Motion, q: real)
    ensures var (end, kill) := TickMotion([Burn(loss)], m, q);
            end.mass == m.mass - loss && (kill <==> end.mass <= 0.0)
  {
    var ms := [Reset(m), Burn(loss)(Reset(m), q).0];
    assert Trace([Burn(loss)], ms, q);
    TickLaw([Burn(loss)], m, ms, q);
  }

  lemma OneMore(k: real, loss: real)
    ensures k * loss == (k - 1.0) * loss + loss
  {
  }

  /** The mass falls by the same amount every turn, because the request is cleared
      every turn, and some tick says that the object dies if and only if no mass is
      left in the end. */
  lemma {:induction false} BurnTurns(n: nat, k: real, loss: real, burnt: real, m: Motion, q: real)
    requires k == n as real && burnt == k * loss && loss >= 0.0
    ensures var (end, dead) := Turns(n, [Burn(loss)], m, q);
            end.mass == m.mass - burnt && (dead <==> n > 0 && end.mass <= 0.0)
  {
    if n > 0 {
      OneMore(k, loss);
      BurnTurns(n - 1, k - 1.0, loss, burnt - loss, m, q);
      BurnTick(loss, Turns(n - 1, [Burn(loss)], m, q).0, q);
    }
  }
}
