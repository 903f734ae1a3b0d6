/** What the swept-sphere test promises: no object passes through another between
    two turns, and exactly when the test cries wolf. */
module Collision {
  import opened Physics

  // ----- a quadratic d(t) = pp + 2*t*pv + t*t*vv over one quantum -----

  function Quad(pp: real, pv: real, vv: real, t: real): real { pp + 2.0 * t * pv + t * t * vv }

  lemma QuadAtOne(pp: real, pv: real, vv: real)
    ensures Quad(pp, pv, vv, 1.0) == vv + 2.0 * pv + pp
  {
  }

  /** The two ways the test says no leave the quadratic positive before the end. */
  lemma StaysApart(pp: real, pv: real, vv: real, t: real)
    requires 0.0 <= t < 1.0 && pp > 0.0 && vv >= 0.0
    requires pv >= 0.0 || (pv + vv <= 0.0 && vv + 2.0 * pv + pp >= 0.0 && pv < 0.0)
    ensures Quad(pp, pv, vv, t) > 0.0
  {
    if pv >= 0.0 {
      MulLe(0.0, t, pv);
      MulLe(0.0, t, t);
      MulLe(0.0, t * t, vv);
    } else {
      var u := 1.0 - t;
      Backwards(pp, pv, vv, u);
      MulLe(0.0, u, vv);
      if vv > 0.0 { MulPositive(u, vv); }
      MulPositive(u, u * vv - 2.0 * (pv + vv));
    }
  }

  /** The quadratic seen from the end of the quantum. */
  lemma Backwards(pp: real, pv: real, vv: real, u: real)
    ensures Quad(pp, pv, vv, 1.0 - u) == (vv + 2.0 * pv + pp) + u * (u * vv - 2.0 * (pv + vv))
  {
    var t := 1.0 - u;
    assert t * t * vv == vv - 2.0 * (u * vv) + u * (u * vv);
    assert 2.0 * t * pv == 2.0 * pv - 2.0 * (u * pv);
    assert u * (u * vv - 2.0 * (pv + vv)) == u * (u * vv) - 2.0 * (u * pv) - 2.0 * (u * vv);
  }

  /** Completing the square. */
  lemma Completed(pp: real, pv: real, vv: real, t: real)
    ensures Quad(pp, pv, vv, t) * vv == (t * vv + pv) * (t * vv + pv) + (pp * vv - pv * pv)
  {
    var u := t * vv;
    assert (u + pv) * (u + pv) == u * u + 2.0 * u * pv + pv * pv;
    assert (2.0 * t * pv) * vv == 2.0 * u * pv;
    assert (t * t * vv) * vv == u * u;
    assert Quad(pp, pv, vv, t) * vv == pp * vv + (2.0 * t * pv) * vv + (t * t * vv) * vv;
  }

  lemma AboveMinimum(pp: real, pv: real, vv: real, t: real)
    requires vv > 0.0 && pp * vv > pv * pv
    ensures Quad(pp, pv, vv, t) > 0.0
  {
    Completed(pp, pv, vv, t);
    var w := Square(t * vv + pv);
    MulSign(Quad(pp, pv, vv, t), vv);
  }

  /** A quadratic that is negative at the end is not positive somewhat earlier. */
  lemma NegativeBeforeEnd(pp: real, pv: real, vv: real) returns (t: real)
    requires pp > 0.0 && vv >= 0.0 && vv + 2.0 * pv + pp < 0.0
    ensures 0.0 <= t < 1.0 && Quad(pp, pv, vv, t) <= 0.0
  {
    var k := -2.0 * pv - vv;
    t := pp / k;
    assert t * k == pp;
    MulSign(t, k);
    MulSign(1.0 - t, k);
    MulLe(t, 1.0, vv);
    MulLe(t * vv, vv, t);
    assert Quad(pp, pv, vv, t) == pp + t * (2.0 * pv + t * vv);
    assert t * (2.0 * pv + t * vv) == t * (2.0 * pv) + (t * vv) * t;
    assert t * k == -(t * (2.0 * pv)) - vv * t;
  }

  /** A minimum inside the quantum that is not positive. */
  lemma LowMinimum(pp: real, pv: real, vv: real) returns (t: real)
    requires pv < 0.0 && vv > 0.0 && pv + vv > 0.0 && pp * vv <= pv * pv
    ensures 0.0 <= t < 1.0 && Quad(pp, pv, vv, t) <= 0.0
  {
    t := -pv / vv;
    assert t * vv == -pv;
    MulSign(t, vv);
    MulSign(1.0 - t, vv);
    Completed(pp, pv, vv, t);
    MulSign(Quad(pp, pv, vv, t), vv);
  }

  // ----- the test -----

  /** The last comparison of the test, over plain numbers, always succeeds. */
  lemma LastComparison(pp: real, pv: real, vv: real)
    requires pp > 0.0 && pv < 0.0 && vv > 0.0
    ensures pp + pv * (pv / vv) > 0.0
  {
    var minTime := pv / vv;
    assert minTime * vv == pv;
    MulSign(-minTime, vv);
    MulPositive(-pv, -minTime);
  }

  /** The test divides by a positive number, and its last comparison adds nothing:
      it is the disjunction of its early answers. */
  lemma CheckCases(a: Motion, b: Motion, q: real)
    ensures VV(a, b, q) >= 0.0
    ensures PP(a, b) > 0.0 && PV(a, b, q) < 0.0 ==> VV(a, b, q) > 0.0
    ensures CheckCollision(a, b, q) <==>
              || PP(a, b) <= 0.0
              || (PV(a, b, q) < 0.0 &&
                  (PV(a, b, q) + VV(a, b, q) > 0.0 || VV(a, b, q) + 2.0 * PV(a, b, q) + PP(a, b) < 0.0))
  {
    Coefficients(a, b, q);
    if PP(a, b) > 0.0 && PV(a, b, q) < 0.0 {
      LastComparison(PP(a, b), PV(a, b, q), VV(a, b, q));
    }
  }

  lemma Coefficients(a: Motion, b: Motion, q: real)
    ensures VV(a, b, q) >= 0.0
    ensures PV(a, b, q) < 0.0 ==> VV(a, b, q) > 0.0
  {
    var v := b.velocity.Sub(a.velocity).Scale(q);
    DotSelf(v);
    if PV(a, b, q) < 0.0 {
      ApproachMoves(b.location.Sub(a.location), v);
    }
  }

  /** The gap with the coefficients as plain numbers. */
  lemma GapIsQuad(a: Motion, b: Motion, q: real, t: real, pp: real, pv: real, vv: real)
    requires pp == PP(a, b) && pv == PV(a, b, q) && vv == VV(a, b, q)
    ensures Gap(a, b, q, t) == Quad(pp, pv, vv, t)
  {
    GapIsQuadratic(a, b, q, t);
  }

  /** The coefficients of a pair on which the test says no. */
  lemma MissCoefficients(a: Motion, b: Motion, q: real) returns (pp: real, pv: real, vv: real)
    requires !CheckCollision(a, b, q)
    ensures pp == PP(a, b) && pv == PV(a, b, q) && vv == VV(a, b, q)
    ensures pp > 0.0 && vv >= 0.0 && (pv >= 0.0 || (pv + vv <= 0.0 && vv + 2.0 * pv + pp >= 0.0))
  {
    CheckCases(a, b, q);
    pp, pv, vv := PP(a, b), PV(a, b, q), VV(a, b, q);
  }

  lemma QuadStaysApart(pp: real, pv: real, vv: real, t: real)
    requires 0.0 <= t <= 1.0 && pp > 0.0 && vv >= 0.0
    requires pv >= 0.0 || (pv + vv <= 0.0 && vv + 2.0 * pv + pp >= 0.0)
    ensures (t < 1.0 ==> Quad(pp, pv, vv, t) > 0.0) && Quad(pp, pv, vv, t) >= 0.0
  {
    if t < 1.0 {
      StaysApart(pp, pv, vv, t);
    } else {
      QuadAtOne(pp, pv, vv);
    }
  }

  /** No tunnelling: if the test says no, the spheres moving on straight lines are
      strictly apart at every moment before the end of the quantum, and do not
      overlap at its end. */
  lemma NoTunnelling(a: Motion, b: Motion, q: real, t: real)
    requires !CheckCollision(a, b, q) && 0.0 <= t <= 1.0
    ensures t < 1.0 ==> Gap(a, b, q, t) > 0.0
    ensures Gap(a, b, q, t) >= 0.0
  {
    var pp, pv, vv := MissCoefficients(a, b, q);
    GapIsQuad(a, b, q, t, pp, pv, vv);
    QuadStaysApart(pp, pv, vv, t);
  }

  /** The spheres touch at some moment of the quantum before its end. */
  ghost predicate Touch(a: Motion, b: Motion, q: real) {
    exists t: real :: 0.0 <= t < 1.0 && Gap(a, b, q, t) <= 0.0
  }

  /** The approaching pair whose closest approach lies inside the quantum, but
      outside contact distance. */
  predicate NearMiss(a: Motion, b: Motion, q: real) {
    var pp, pv, vv := PP(a, b), PV(a, b, q), VV(a, b, q);
    pp > 0.0 && pv < 0.0 && pv + vv > 0.0 && pp * vv > pv * pv
  }

  lemma TouchAt(a: Motion, b: Motion, q: real, t: real, pp: real, pv: real, vv: real)
    requires pp == PP(a, b) && pv == PV(a, b, q) && vv == VV(a, b, q)
    requires 0.0 <= t < 1.0 && Quad(pp, pv, vv, t) <= 0.0
    ensures Touch(a, b, q)
  {
    GapIsQuad(a, b, q, t, pp, pv, vv);
    assert Gap(a, b, q, t) <= 0.0;
  }

  /** A moment of contact, over plain numbers. */
  lemma QuadTouches(pp: real, pv: real, vv: real) returns (t: real)
    requires vv >= 0.0 && (pv < 0.0 ==> vv > 0.0)
    requires pp <= 0.0 || (pv < 0.0 && (pv + vv > 0.0 || vv + 2.0 * pv + pp < 0.0))
    requires !(pp > 0.0 && pv < 0.0 && pv + vv > 0.0 && pp * vv > pv * pv)
    ensures 0.0 <= t < 1.0 && Quad(pp, pv, vv, t) <= 0.0
  {
    if pp <= 0.0 {
      t := 0.0;
    } else if pv + vv > 0.0 {
      t := LowMinimum(pp, pv, vv);
    } else {
      t := NegativeBeforeEnd(pp, pv, vv);
    }
  }

  lemma HitTouches(a: Motion, b: Motion, q: real)
    requires CheckCollision(a, b, q) && !NearMiss(a, b, q)
    ensures Touch(a, b, q)
  {
    CheckCases(a, b, q);
    Coefficients(a, b, q);
    var pp, pv, vv := PP(a, b), PV(a, b, q), VV(a, b, q);
    var t := QuadTouches(pp, pv, vv);
    TouchAt(a, b, q, t, pp, pv, vv);
  }

  lemma NearMissIsHit(a: Motion, b: Motion, q: real)
    requires NearMiss(a, b, q)
    ensures CheckCollision(a, b, q)
  {
    CheckCases(a, b, q);
  }

  lemma NearMissIsApart(a: Motion, b: Motion, q: real, t: real)
    requires NearMiss(a, b, q)
    ensures Gap(a, b, q, t) > 0.0
  {
    var pp, pv, vv := PP(a, b), PV(a, b, q), VV(a, b, q);
    GapIsQuad(a, b, q, t, pp, pv, vv);
    AboveMinimum(pp, pv, vv, t);
  }

  lemma NearMissDoesNotTouch(a: Motion, b: Motion, q: real)
    requires NearMiss(a, b, q)
    ensures !Touch(a, b, q)
  {
    forall t: real | 0.0 <= t < 1.0 ensures Gap(a, b, q, t) > 0.0 {
      NearMissIsApart(a, b, q, t);
    }
  }

  lemma MissDoesNotTouch(a: Motion, b: Motion, q: real)
    requires !CheckCollision(a, b, q)
    ensures !Touch(a, b, q)
  {
    forall t: real | 0.0 <= t < 1.0 ensures Gap(a, b, q, t) > 0.0 {
      NoTunnelling(a, b, q, t);
    }
  }

  /** The test is right on every pair but the near misses, where it reports a
      collision that does not happen: it says yes to all of them. */
  lemma ExactButForNearMisses(a: Motion, b: Motion, q: real)
    ensures (CheckCollision(a, b, q) <==> Touch(a, b, q)) <==> !NearMiss(a, b, q)
    ensures NearMiss(a, b, q) ==> CheckCollision(a, b, q) && !Touch(a, b, q)
  {
    if NearMiss(a, b, q) {
      NearMissIsHit(a, b, q);
      NearMissDoesNotTouch(a, b, q);
    } else if CheckCollision(a, b, q) {
      HitTouches(a, b, q);
    } else {
      MissDoesNotTouch(a, b, q);
    }
  }

  /** The near misses exist: two points that pass each other at distance 2 with
      contact distance 1. */
  lemma NearMissExample()
    ensures var a := Motion(ZERO, ZERO, 1.0, 0.5, ZERO, ZERO, 0.0);
            var b := a.(location := Vec(-1.0, 2.0, 0.0), velocity := Vec(2.0, 0.0, 0.0));
            NearMiss(a, b, 1.0)
  {
  }

  lemma MirrorAxis(xa: real, xb: real, va: real, vb: real, q: real)
    ensures (xb - xa) * (xb - xa) == (xa - xb) * (xa - xb)
    ensures (xb - xa) * ((vb - va) * q) == (xa - xb) * ((va - vb) * q)
    ensures ((vb - va) * q) * ((vb - va) * q) == ((va - vb) * q) * ((va - vb) * q)
  {
    assert (va - vb) * q == -((vb - va) * q);
  }

  /** The answer does not depend on which object asks. */
  lemma CheckIsSymmetric(a: Motion, b: Motion, q: real)
    ensures CheckCollision(a, b, q) == CheckCollision(b, a, q)
  {
    MirrorAxis(a.location.x, b.location.x, a.velocity.x, b.velocity.x, q);
    MirrorAxis(a.location.y, b.location.y, a.velocity.y, b.velocity.y, q);
    MirrorAxis(a.location.z, b.location.z, a.velocity.z, b.velocity.z, q);
    assert PP(a, b) == PP(b, a);
    assert PV(a, b, q) == PV(b, a, q);
    assert VV(a, b, q) == VV(b, a, q);
  }

  // ----- the test and the move that follows it -----

  ghost predicate KeepsLocation(e: Effector) {
    forall m: Motion, q: real :: e(m, q).0.location == m.location
  }

  lemma {:induction false} EffectorsKeepLocation(es: seq<Effector>, m: Motion, q: real)
    requires forall i :: 0 <= i < |es| ==> KeepsLocation(es[i])
    ensures RunEffectors(es, m, q).0.location == m.location
  {
    if es != [] {
      EffectorsKeepLocation(es[..|es| - 1], m, q);
      assert KeepsLocation(es[|es| - 1]);
    }
  }

  /** A pair that the collision phase does not record is not overlapping after
      both objects' `apply`, if post-effectors leave the location alone. */
  lemma TurnSeparation(a: Motion, b: Motion, postA: seq<Effector>, postB: seq<Effector>, q: real)
    requires !CheckCollision(a, b, q)
    requires forall i :: 0 <= i < |postA| ==> KeepsLocation(postA[i])
    requires forall i :: 0 <= i < |postB| ==> KeepsLocation(postB[i])
    ensures DistSq(ApplyMotion(postB, b, q).0.location, ApplyMotion(postA, a, q).0.location)
            >= (a.radius + b.radius) * (a.radius + b.radius)
  {
    EffectorsKeepLocation(postA, a.(location := a.location.Add(a.velocity.Scale(q))), q);
    EffectorsKeepLocation(postB, b.(location := b.location.Add(b.velocity.Scale(q))), q);
    NoTunnelling(a, b, q, 1.0);
    assert 1.0 * q == q;
    assert Position(a, q, 1.0) == a.location.Add(a.velocity.Scale(q));
    assert Position(b, q, 1.0) == b.location.Add(b.velocity.Scale(q));
  }
}
