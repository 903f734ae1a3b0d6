/** `base_object`: the turn of one object, changing its fields in place. */
module BaseObjects {
  import opened Physics

  class BaseObject {
    const id: nat
    var alive: bool
    var location: Vec
    var velocity: Vec
    var mass: real
    var radius: real
    // Effectors set these.
    var force: Vec
    var accelMod: Vec
    var massMod: real
    var preAttribs: seq<Effector>
    var postAttribs: seq<Effector>

    constructor (id: nat, m: Motion)
      ensures this.id == id && alive && View() == m && preAttribs == [] && postAttribs == []
    {
      this.id, alive := id, true;
      location, velocity, mass, radius := m.location, m.velocity, m.mass, m.radius;
      force, accelMod, massMod := m.force, m.accelMod, m.massMod;
      preAttribs, postAttribs := [], [];
    }

    function View(): Motion
      reads this
    {
      Motion(location, velocity, mass, radius, force, accelMod, massMod)
    }

    /** What an effector left behind. */
    method Store(m: Motion)
      modifies this
      ensures View() == m
      ensures alive == old(alive) && preAttribs == old(preAttribs) && postAttribs == old(postAttribs)
    {
      location, velocity, mass, radius := m.location, m.velocity, m.mass, m.radius;
      force, accelMod, massMod := m.force, m.accelMod, m.massMod;
    }

    /** Runs every effector of the list, even after one has said that the object dies. */
    method RunAll(es: seq<Effector>, q: real) returns (killme: bool)
      modifies this
      ensures (View(), killme) == RunEffectors(es, old(View()), q)
      ensures alive == old(alive) && preAttribs == old(preAttribs) && postAttribs == old(postAttribs)
    {
      killme := false;
      var i := 0;
      assert es[..0] == [];
      while i < |es|
        invariant 0 <= i <= |es|
        invariant (View(), killme) == RunEffectors(es[..i], old(View()), q)
        invariant alive == old(alive) && preAttribs == old(preAttribs) && postAttribs == old(postAttribs)
      {
        assert es[..i + 1][..i] == es[..i];
        var (m, k) := es[i](View(), q);
        Store(m);
        if k { killme := true; }
        i := i + 1;
      }
      assert es[..i] == es;
    }

    /** The accumulators are cleared, the pre-effectors run, mass and velocity
        follow.  The source's last statement compares `alive` with the verdict
        and discards the answer: `alive` does not change here. */
    method Tick(q: real) returns (killme: bool)
      modifies this
      ensures (View(), killme) == TickMotion(preAttribs, old(View()), q)
      ensures alive == old(alive) && preAttribs == old(preAttribs) && postAttribs == old(postAttribs)
    {
      accelMod, force, massMod := ZERO, ZERO, 0.0;
      killme := RunAll(preAttribs, q);
      mass := mass + massMod;
      if mass <= 0.0 {
        killme := true;
      } else {
        var a := force.Over(mass);
        velocity := velocity.Add(a.Add(accelMod).Scale(q));
      }
    }

    method Apply(q: real) returns (killme: bool)
      modifies this
      ensures (View(), killme) == ApplyMotion(postAttribs, old(View()), q)
      ensures alive == old(alive) && preAttribs == old(preAttribs) && postAttribs == old(postAttribs)
    {
      location := location.Add(velocity.Scale(q));
      killme := RunAll(postAttribs, q);
    }

    /** The turn of a worker for this object: only the verdict of `apply` survives. */
    method TakeTurn(q: real)
      modifies this
      ensures var ticked := TickMotion(preAttribs, old(View()), q).0;
              (View(), !alive) == ApplyMotion(postAttribs, ticked, q)
      ensures preAttribs == old(preAttribs) && postAttribs == old(postAttribs)
    {
      var k := Tick(q);
      alive := !k;
      k := Apply(q);
      alive := !k;
    }
  }
}
