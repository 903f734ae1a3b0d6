/** Whole runs of the engine: turn after turn, with other threads pushing messages
    at any moment. */
module SimRun {
  import opened Physics
  import opened Collision
  import opened Effects
  import opened SimWorld

  /** What survives from one turn to the next. */
  datatype Core = Core(objects: Objects, messages: seq<Message>, endRun: bool)

  /** What the environment decides in one turn: the order in which the workers
      recorded the collisions, and the messages that other threads push, before
      and between the removals that the resolution pushes. */
  datatype Input = Input(recs: seq<(nat, nat)>, arrivals: seq<seq<Message>>)

  function Flatten(groups: seq<seq<Message>>): seq<Message> {
    if groups == [] then [] else groups[0] + Flatten(groups[1..])
  }

  /** The message queue after the engine's own pushes and the arrivals. */
  function Interleave(own: seq<Message>, arrivals: seq<seq<Message>>): seq<Message>
    decreases |own|
  {
    if own == [] then Flatten(arrivals)
    else if arrivals == [] then own
    else arrivals[0] + [own[0]] + Interleave(own[1..], arrivals[1..])
  }

  /** The objects that take part in the turn. */
  function Started(c: Core): Objects { Sweep(Drain(c.objects, c.endRun, c.messages).objects) }

  function Moved(r: Rules, c: Core): Objects { ApplyAll(r, TickAll(r, Started(c))) }

  /** The records are the colliding pairs of the ticked world, in some order. */
  ghost predicate ValidRecords(r: Rules, c: Core, recs: seq<(nat, nat)>) {
    Recorded(r, TickAll(r, Started(c)), multiset(recs))
  }

  lemma RecordsPresent(r: Rules, c: Core, recs: seq<(nat, nat)>)
    requires ValidRecords(r, c, recs)
    ensures Present(Moved(r, c), recs)
  {
  }

  /** One iteration of `run_sim` whose `turn_init` succeeds. */
  ghost function Turn(r: Rules, c: Core, input: Input): Core
    requires ValidRecords(r, c, input.recs)
  {
    RecordsPresent(r, c, input.recs);
    var (objects, own) := Resolve(r, Moved(r, c), input.recs);
    Core(objects, Interleave(own, input.arrivals), c.endRun)
  }

  /** A message another thread may push: an addition, or the removal of an object
      that takes part in the turn. */
  ghost predicate Polite(keys: set<nat>, m: Message) {
    (exists b :: m == AddMessage(b)) || (exists i :: i in keys && m == RemoveMessage(i))
  }

  ghost predicate ValidInput(r: Rules, c: Core, input: Input) {
    && ValidRecords(r, c, input.recs)
    && forall m :: m in Flatten(input.arrivals) ==> Polite(Started(c).Keys, m)
  }

  ghost predicate ValidRun(r: Rules, c: Core, inputs: seq<Input>)
    decreases |inputs|
  {
    inputs == [] || (ValidInput(r, c, inputs[0]) && ValidRun(r, Turn(r, c, inputs[0]), inputs[1..]))
  }

  ghost function Run(r: Rules, c: Core, inputs: seq<Input>): Core
    requires ValidRun(r, c, inputs)
    decreases |inputs|
  {
    if inputs == [] then c else Run(r, Turn(r, c, inputs[0]), inputs[1..])
  }

  /** Interleaving keeps every message and makes none up. */
  lemma {:induction false} InterleaveHas(own: seq<Message>, arrivals: seq<seq<Message>>, m: Message)
    ensures m in Interleave(own, arrivals) <==> m in own || m in Flatten(arrivals)
    decreases |own|
  {
    if own != [] && arrivals != [] {
      InterleaveHas(own[1..], arrivals[1..], m);
      assert own == [own[0]] + own[1..];
    }
  }

  lemma {:induction false} PoliteIsSafe(keys: set<nat>, messages: seq<Message>)
    requires forall m :: m in messages ==> Polite(keys, m)
    ensures Safe(keys, messages)
    decreases |messages|
  {
    if messages != [] {
      var m := messages[0];
      assert Polite(keys, m);
      var more := if m.verb == 1 then keys + {m.data.body.id} else keys;
      forall n | n in messages[1..] ensures Polite(more, n) {
        assert n in messages;
      }
      PoliteIsSafe(more, messages[1..]);
    }
  }

  /** Keys are ids, and the queue can be drained without error. */
  ghost predicate CoreInv(c: Core) {
    WellKeyed(c.objects) && Safe(c.objects.Keys, c.messages)
  }

  lemma {:induction false} DrainKeepsKeys(objects: Objects, endRun: bool, messages: seq<Message>)
    requires WellKeyed(objects)
    ensures WellKeyed(Drain(objects, endRun, messages).objects)
    decreases |messages|
  {
    if messages != [] {
      var (o, e, outcome) := Handle(objects, endRun, messages[0]);
      if outcome == Done {
        DrainKeepsKeys(o, e, messages[1..]);
      }
    }
  }

  lemma StartedKeys(r: Rules, c: Core)
    requires WellKeyed(c.objects)
    ensures WellKeyed(Started(c)) && WellKeyed(Moved(r, c)) && Moved(r, c).Keys == Started(c).Keys
  {
    DrainKeepsKeys(c.objects, c.endRun, c.messages);
  }

  /** One turn keeps the invariant: what resolution asks to remove is in the map. */
  lemma TurnKeeps(r: Rules, c: Core, input: Input)
    requires CoreInv(c) && ValidInput(r, c, input)
    ensures CoreInv(Turn(r, c, input)) && Turn(r, c, input).objects.Keys == Started(c).Keys
  {
    StartedKeys(r, c);
    RecordsPresent(r, c, input.recs);
    ResolveKeeps(r, Moved(r, c), input.recs);
    var own := Resolve(r, Moved(r, c), input.recs).1;
    var keys := Started(c).Keys;
    forall m | m in Interleave(own, input.arrivals) ensures Polite(keys, m) {
      InterleaveHas(own, input.arrivals, m);
      if m in own {
        var k :| 0 <= k < |own| && own[k] == m;
        assert exists i :: i in Moved(r, c) && own[k] == RemoveMessage(i);
      }
    }
    PoliteIsSafe(keys, Interleave(own, input.arrivals));
  }

  // ----- arrivals, one group at a time -----

  lemma {:induction false} FlattenAppend(groups: seq<seq<Message>>, g: seq<Message>)
    ensures Flatten(groups + [g]) == Flatten(groups) + g
  {
    if groups == [] {
      assert groups + [g] == [g];
    } else {
      assert (groups + [g])[1..] == groups[1..] + [g];
      FlattenAppend(groups[1..], g);
    }
  }

  /** What has arrived once the first k groups have, where no more than all do. */
  function Arrived(groups: seq<seq<Message>>, k: nat): seq<Message> {
    Flatten(if k <= |groups| then groups[..k] else groups)
  }

  lemma ArrivedNext(groups: seq<seq<Message>>, k: nat)
    ensures Arrived(groups, k + 1) == Arrived(groups, k) + if k < |groups| then groups[k] else []
  {
    if k < |groups| {
      FlattenAppend(groups[..k], groups[k]);
      assert groups[..k + 1] == groups[..k] + [groups[k]];
    } else {
      assert k == |groups| ==> groups[..k] == groups;
    }
  }

  function Later(groups: seq<seq<Message>>, k: nat): seq<seq<Message>> {
    if k <= |groups| then groups[k..] else []
  }

  /** The engine's own pushes, a group of arrivals before each. */
  function Weave(own: seq<Message>, groups: seq<seq<Message>>): seq<Message>
    decreases |own|
  {
    if own == [] then []
    else Arrived(groups, 1) + [own[0]] + Weave(own[1..], Later(groups, 1))
  }

  lemma OneArrived(groups: seq<seq<Message>>)
    ensures Arrived(groups, 1) == if groups == [] then [] else groups[0]
  {
    ArrivedNext(groups, 0);
    assert groups[..0] == [];
  }

  lemma JoinThree<T>(a: seq<T>, b: seq<T>, c: seq<T>)
    ensures a + (b + c) == (a + b) + c
  {
  }

  lemma LaterStep(groups: seq<seq<Message>>, k: nat)
    ensures Later(Later(groups, 1), k) == Later(groups, k + 1)
  {
  }

  lemma {:induction false} NothingArrives(own: seq<Message>)
    ensures Weave(own, []) == own && Interleave(own, []) == own
    decreases |own|
  {
    if own != [] {
      NothingArrives(own[1..]);
      OneArrived([]);
      assert own == [own[0]] + own[1..];
    }
  }

  lemma {:induction false} InterleaveIsWeave(own: seq<Message>, groups: seq<seq<Message>>)
    ensures Interleave(own, groups) == Weave(own, groups) + Flatten(Later(groups, |own|))
    decreases |own|
  {
    OneArrived(groups);
    if groups == [] {
      NothingArrives(own);
    } else if own != [] {
      InterleaveIsWeave(own[1..], groups[1..]);
      LaterStep(groups, |own| - 1);
      JoinThree(groups[0] + [own[0]], Weave(own[1..], groups[1..]), Flatten(Later(groups, |own|)));
    }
  }

  lemma {:induction false} WeaveAppend(a: seq<Message>, b: seq<Message>, groups: seq<seq<Message>>)
    ensures Weave(a + b, groups) == Weave(a, groups) + Weave(b, Later(groups, |a|))
    decreases |a|
  {
    if a == [] {
      assert a + b == b && Later(groups, 0) == groups;
    } else {
      WeaveAppend(a[1..], b, Later(groups, 1));
      assert (a + b)[1..] == a[1..] + b;
      LaterStep(groups, |a| - 1);
      JoinThree(Arrived(groups, 1) + [a[0]], Weave(a[1..], Later(groups, 1)), Weave(b, Later(groups, |a|)));
    }
  }

  /** Messages that arrive before the first removal belong to its group. */
  function Earlier(early: seq<Message>, late: seq<seq<Message>>): seq<seq<Message>> {
    if late == [] then [early] else [early + late[0]] + late[1..]
  }

  lemma InterleaveEarlier(own: seq<Message>, early: seq<Message>, late: seq<seq<Message>>)
    ensures Interleave(own, Earlier(early, late)) == early + Interleave(own, late)
  {
    var groups := Earlier(early, late);
    assert groups[1..] == if late == [] then [] else late[1..];
    if own != [] {
      assert own == [own[0]] + own[1..];
      assert Interleave(own[1..], []) == own[1..];
    }
  }

  /** A turn of the engine during which others push: `early` while it drains and
      works, and the groups of `late` while it resolves. */
  lemma TurnWithArrivals(r: Rules, c: Core, recs: seq<(nat, nat)>, early: seq<Message>, late: seq<seq<Message>>)
    requires CoreInv(c) && ValidRecords(r, c, recs)
    requires forall m :: m in early || m in Flatten(late) ==> Polite(Started(c).Keys, m)
    ensures Present(Moved(r, c), recs) && WellKeyed(Moved(r, c))
    ensures var (o, own) := Resolve(r, Moved(r, c), recs);
            var next := Core(o, early + Interleave(own, late), c.endRun);
            Turn(r, c, Input(recs, Earlier(early, late))) == next && CoreInv(next)
  {
    var input := Input(recs, Earlier(early, late));
    RecordsPresent(r, c, recs);
    StartedKeys(r, c);
    InterleaveEarlier(Resolve(r, Moved(r, c), recs).1, early, late);
    InterleaveEarlier([], early, late);
    TurnKeeps(r, c, input);
  }

  /** Over whole runs: however many turns, whatever the workers' order and the
      arrivals, every `turn_init` drains its queue to the end without meeting a
      missing object, and every map key is its object's id. */
  lemma {:induction false} EveryTurnInitSucceeds(r: Rules, c: Core, inputs: seq<Input>)
    requires CoreInv(c) && ValidRun(r, c, inputs)
    ensures var end := Run(r, c, inputs);
            var d := Drain(end.objects, end.endRun, end.messages);
            && WellKeyed(end.objects) && CoreInv(end)
            && d.outcome == Done && d.rest == []
    decreases |inputs|
  {
    if inputs == [] {
      DrainSucceedsIffSafe(c.objects, c.endRun, c.messages);
    } else {
      TurnKeeps(r, c, inputs[0]);
      EveryTurnInitSucceeds(r, Turn(r, c, inputs[0]), inputs[1..]);
    }
  }

  // ----- who starts a turn -----

  /** An object that a message adds, no later message adding it again, starts the turn
      as it was given, if it is alive and no later message removes it; otherwise it
      does not start it. */
  lemma AddedStarts(c: Core, pre: seq<Message>, b: Body, post: seq<Message>)
    requires CoreInv(c) && c.messages == pre + ([AddMessage(b)] + post) && !Adds(post, b.id)
    ensures b.id in Started(c) <==> b.alive && RemoveMessage(b.id) !in post
    ensures b.id in Started(c) ==> Started(c)[b.id] == b
  {
    AdditionArrives(c.objects, c.endRun, pre, b, post);
  }

  /** An object that no message adds starts the turn as the map held it, if it is alive
      and no message removes it; otherwise it does not start it. */
  lemma UnnamedStarts(c: Core, id: nat)
    requires CoreInv(c) && id in c.objects && !Adds(c.messages, id)
    ensures id in Started(c) <==> c.objects[id].alive && RemoveMessage(id) !in c.messages
    ensures id in Started(c) ==> Started(c)[id] == c.objects[id]
  {
    DrainMarks(c.objects, c.endRun, c.messages, id);
  }

  /** Nobody else starts it. */
  lemma {:induction false} OnlyTheseStart(objects: Objects, endRun: bool, messages: seq<Message>, id: nat)
    requires id in Drain(objects, endRun, messages).objects
    ensures id in objects || Adds(messages, id)
    decreases |messages|
  {
    if messages != [] {
      var (o, e, outcome) := Handle(objects, endRun, messages[0]);
      if outcome == Done && id !in objects {
        if id in o {
          assert messages[0].data.Object? && messages[0].data.body.id == id;
        } else {
          OnlyTheseStart(o, e, messages[1..], id);
          var k :| 0 <= k < |messages[1..]| && messages[1..][k].data.Object? && messages[1..][k].data.body.id == id;
          assert messages[k + 1] == messages[1..][k];
        }
      }
    }
  }

  // ----- who stays apart -----

  lemma UnrecordedIsMiss(r: Rules, c: Core, recs: seq<(nat, nat)>, x: nat, y: nat)
    requires ValidRecords(r, c, recs) && x in Started(c) && y in Started(c) && x < y && (x, y) !in recs
    ensures var ticked := TickAll(r, Started(c));
            !CheckCollision(ticked[x].motion, ticked[y].motion, r.q)
  {
    assert multiset(recs)[(x, y)] == 0;
    assert !Hits(r, TickAll(r, Started(c)), (x, y));
  }

  /** Which pairs are recorded, each once: those that touch before the end of the
      quantum, and the near misses. */
  lemma RecordedIff(r: Rules, c: Core, recs: seq<(nat, nat)>, x: nat, y: nat, a: Motion, b: Motion)
    requires ValidRecords(r, c, recs) && x in Started(c) && y in Started(c) && x < y
    requires a == TickAll(r, Started(c))[x].motion && b == TickAll(r, Started(c))[y].motion
    ensures multiset(recs)[(x, y)] == if CheckCollision(a, b, r.q) then 1 else 0
    ensures (x, y) in recs <==> Touch(a, b, r.q) || NearMiss(a, b, r.q)
  {
    assert multiset(recs)[(x, y)] == if Hits(r, TickAll(r, Started(c)), (x, y)) then 1 else 0;
    ExactButForNearMisses(a, b, r.q);
  }

  lemma MovedIsApplied(r: Rules, c: Core, x: nat) returns (ticked: Motion)
    requires WellKeyed(c.objects) && x in Started(c)
    ensures ticked == TickAll(r, Started(c))[x].motion
    ensures Moved(r, c)[x].motion == ApplyMotion(r.post(x), ticked, r.q).0
  {
    StartedKeys(r, c);
    ticked := TickAll(r, Started(c))[x].motion;
  }

  /** Two objects whose pair is not among the turn's records are, after both have
      moved, at least the sum of their radii apart, if their post-effectors leave the
      location alone. */
  lemma UnrecordedStayApart(r: Rules, c: Core, recs: seq<(nat, nat)>, x: nat, y: nat, a: Motion, b: Motion)
    requires WellKeyed(c.objects) && ValidRecords(r, c, recs)
    requires x in Started(c) && y in Started(c) && x < y && (x, y) !in recs
    requires a == TickAll(r, Started(c))[x].motion && b == TickAll(r, Started(c))[y].motion
    requires forall i: nat, e :: e in r.post(i) ==> KeepsLocation(e)
    ensures DistSq(Moved(r, c)[y].motion.location, Moved(r, c)[x].motion.location)
            >= (a.radius + b.radius) * (a.radius + b.radius)
  {
    UnrecordedIsMiss(r, c, recs, x, y);
    var a1 := MovedIsApplied(r, c, x);
    var b1 := MovedIsApplied(r, c, y);
    TurnSeparation(a, b, r.post(x), r.post(y), r.q);
  }

  // ----- who is deleted -----

  /** The verdict of `apply` on the ticked object. */
  function ApplyKills(r: Rules, b: Body): bool {
    ApplyMotion(r.post(b.id), TickMotion(r.pre(b.id), b.motion, r.q).0, r.q).1
  }

  /** An object that took part in a turn is gone at the start of the next one
      exactly if its `apply` said so, or a recorded collision condemned it, or
      another thread asked for it.  What its `tick` said plays no part. */
  lemma WhoIsDeleted(r: Rules, c: Core, input: Input, id: nat)
    requires CoreInv(c) && ValidInput(r, c, input) && PairOnly(r.verdict)
    requires id in Started(c) && !Adds(Turn(r, c, input).messages, id)
    ensures Present(Moved(r, c), input.recs)
    ensures id !in Started(Turn(r, c, input)) <==>
              || ApplyKills(r, Started(c)[id])
              || Condemned(r, Moved(r, c), input.recs, id)
              || RemoveMessage(id) in Flatten(input.arrivals)
  {
    StartedKeys(r, c);
    RecordsPresent(r, c, input.recs);
    TurnKeeps(r, c, input);
    var moved := Moved(r, c);
    var next := Turn(r, c, input);
    ResolveKeeps(r, moved, input.recs);
    RemovalsAreCondemned(r, moved, input.recs, id);
    InterleaveHas(Resolve(r, moved, input.recs).1, input.arrivals, RemoveMessage(id));
    DrainMarks(next.objects, next.endRun, next.messages, id);
    assert next.objects[id].alive == moved[id].alive == !ApplyKills(r, Started(c)[id]);
  }

  /** The states of an object during its `apply`, from where the move has taken it. */
  ghost predicate ApplyTrace(r: Rules, b: Body, ms: seq<Motion>) {
    var ticked := TickMotion(r.pre(b.id), b.motion, r.q).0;
    Trace(r.post(b.id), ms, r.q) && ms[0] == ticked.(location := ticked.location.Add(ticked.velocity.Scale(r.q)))
  }

  /** What `apply` says: whether one of the post-effectors, on the state it finds once
      the object has moved, says that the object dies. */
  lemma ApplyKillsIff(r: Rules, b: Body, ms: seq<Motion>)
    requires ApplyTrace(r, b, ms)
    ensures ApplyKills(r, b) <==> SomeKills(r.post(b.id), ms, r.q)
  {
    ApplyLaw(r.post(b.id), TickMotion(r.pre(b.id), b.motion, r.q).0, ms, r.q);
  }

  /** What `tick` leaves in `alive` for the collision phase: whether no pre-effector
      says that the object dies and some mass is left. */
  lemma TickedIsAlive(r: Rules, b: Body, ms: seq<Motion>)
    requires Trace(r.pre(b.id), ms, r.q) && Cleared(b.motion, ms[0])
    ensures TickOne(r, b).alive <==> !SomeKills(r.pre(b.id), ms, r.q) && TickOne(r, b).motion.mass > 0.0
    ensures TickOne(r, b).id == b.id
  {
    TickLaw(r.pre(b.id), b.motion, ms, r.q);
  }

  /** One post-effector that says yes is enough. */
  lemma OneEffectorDeletes(r: Rules, c: Core, input: Input, b: Body, ms: seq<Motion>, i: nat)
    requires ApplyTrace(r, b, ms) && i < |r.post(b.id)| && r.post(b.id)[i](ms[i], r.q).1
    requires CoreInv(c) && ValidInput(r, c, input) && PairOnly(r.verdict)
    requires b.id in Started(c) && Started(c)[b.id] == b && !Adds(Turn(r, c, input).messages, b.id)
    ensures b.id !in Started(Turn(r, c, input))
  {
    ApplyKillsIff(r, b, ms);
    assert SomeKills(r.post(b.id), ms, r.q);
    WhoIsDeleted(r, c, input, b.id);
  }

  /** A death in `tick` that `apply` does not confirm is forgotten: an object of
      no mass is told to die every turn and lives on. */
  lemma TickDeathIsForgotten(r: Rules, b: Body)
    requires r.pre(b.id) == [] && r.post(b.id) == [] && b.motion.mass == 0.0
    ensures TickMotion(r.pre(b.id), b.motion, r.q).1
    ensures ApplyOne(r, TickOne(r, b)).alive
    ensures ApplyOne(r, TickOne(r, b)).motion.mass == 0.0
  {
  }
}
