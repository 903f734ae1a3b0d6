/** The turn of `sim_core` as functions on values: what draining the messages, the
    three worker phases and the resolution of collisions compute.  Objects are
    values keyed by id; a shared pointer to an object is its id. */
module SimWorld {
  import opened Physics
  import opened Separation
  import opened Schedule

  datatype Body = Body(id: nat, alive: bool, motion: Motion)

  type Objects = map<nat, Body>

  datatype Data = Object(body: Body) | ObjectId(oid: nat) | NoData

  /** `gp_sim_message`: type, noun, verb and payload. */
  datatype Message = Message(kind: int, noun: int, verb: int, data: Data)

  /** What `add_object` and `remove_obj` build while the engine runs. */
  function AddMessage(b: Body): Message { Message(0, 1, 1, Object(b)) }
  function RemoveMessage(id: nat): Message { Message(0, 1, 2, ObjectId(id)) }

  /** The parts of the simulation the engine calls but does not define: effectors
      per object, the collision verdict of `apply_collision`, and the square root
      with the result of dividing by zero. */
  datatype Rules = Rules(
    pre: nat -> seq<Effector>, post: nat -> seq<Effector>,
    verdict: (Body, Body) -> bool, sqrt: real -> real, nan: Vec, q: real)

  // ----- turn_init -----

  /** The last two are undefined behaviour: a null pointer or a foreign payload. */
  datatype Outcome = Done | BadType | BadNoun | BadObjectVerb | BadControlVerb | NullObject | BadData

  datatype Drained = Drained(objects: Objects, endRun: bool, rest: seq<Message>, outcome: Outcome)

  /** One message.  The control noun runs on into the error case, even after a
      stop request has been honoured. */
  function Handle(objects: Objects, endRun: bool, m: Message): (Objects, bool, Outcome) {
    if m.kind != 0 then (objects, endRun, BadType)
    else if m.noun == 1 then
      if m.verb == 1 then
        if m.data.Object? then (objects[m.data.body.id := m.data.body], endRun, Done)
        else (objects, endRun, BadData)
      else if m.verb == 2 then
        if !m.data.ObjectId? then (objects, endRun, BadData)
        else if m.data.oid !in objects then (objects, endRun, NullObject)
        else (objects[m.data.oid := objects[m.data.oid].(alive := false)], endRun, Done)
      else (objects, endRun, BadObjectVerb)
    else if m.noun == 2 then
      if m.verb == 1 then (objects, true, BadNoun) else (objects, endRun, BadControlVerb)
    else (objects, endRun, BadNoun)
  }

  function Drain(objects: Objects, endRun: bool, messages: seq<Message>): Drained
    decreases |messages|
  {
    if messages == [] then Drained(objects, endRun, [], Done)
    else
      var (o, e, outcome) := Handle(objects, endRun, messages[0]);
      if outcome != Done then Drained(o, e, messages[1..], outcome)
      else Drain(o, e, messages[1..])
  }

  function Sweep(objects: Objects): Objects {
    map i | i in objects && objects[i].alive :: objects[i]
  }

  /** Every message is one that the engine understands, and every removal names an
      object that is in the map when its turn comes. */
  predicate Safe(keys: set<nat>, messages: seq<Message>)
    decreases |messages|
  {
    messages == [] ||
    (var m := messages[0];
     && m.kind == 0 && m.noun == 1
     && if m.verb == 1 then m.data.Object? && Safe(keys + {m.data.body.id}, messages[1..])
        else m.verb == 2 && m.data.ObjectId? && m.data.oid in keys && Safe(keys, messages[1..]))
  }

  /** Draining succeeds exactly on safe queues, and then leaves none behind. */
  lemma {:induction false} DrainSucceedsIffSafe(objects: Objects, endRun: bool, messages: seq<Message>)
    ensures var d := Drain(objects, endRun, messages);
            && (d.outcome == Done <==> Safe(objects.Keys, messages))
            && (d.outcome == Done ==> d.rest == [] && d.endRun == endRun)
    decreases |messages|
  {
    if messages != [] {
      var (o, e, outcome) := Handle(objects, endRun, messages[0]);
      if outcome == Done {
        var m := messages[0];
        assert o.Keys == if m.verb == 1 then objects.Keys + {m.data.body.id} else objects.Keys;
        DrainSucceedsIffSafe(o, e, messages[1..]);
      }
    }
  }

  /** The ids that the additions among the messages bring in. */
  function AddedIds(messages: seq<Message>): set<nat> {
    if messages == [] then {}
    else (if messages[0].data.Object? then {messages[0].data.body.id} else {}) + AddedIds(messages[1..])
  }

  /** When one more message may be queued. */
  lemma {:induction false} SafeAppend(keys: set<nat>, messages: seq<Message>, m: Message)
    ensures Safe(keys, messages + [m]) <==> Safe(keys, messages) && Safe(keys + AddedIds(messages), [m])
    decreases |messages|
  {
    if messages == [] {
      assert messages + [m] == [m] && keys + AddedIds(messages) == keys;
    } else {
      var first := messages[0];
      var own := if first.data.Object? then {first.data.body.id} else {};
      assert (messages + [m])[1..] == messages[1..] + [m];
      assert keys + own + AddedIds(messages[1..]) == keys + AddedIds(messages);
      SafeAppend(keys + own, messages[1..], m);
      assert own == {} ==> keys + own == keys;
    }
  }

  lemma {:induction false} SafeMore(keys: set<nat>, more: set<nat>, messages: seq<Message>)
    requires keys <= more && Safe(keys, messages)
    ensures Safe(more, messages)
    decreases |messages|
  {
    if messages != [] {
      var m := messages[0];
      var own := if m.verb == 1 then {m.data.body.id} else {};
      SafeMore(if m.verb == 1 then keys + own else keys, if m.verb == 1 then more + own else more, messages[1..]);
    }
  }

  /** An object that no message removes may leave the map. */
  lemma {:induction false} SafeWithout(keys: set<nat>, oid: nat, messages: seq<Message>)
    requires Safe(keys, messages) && RemoveMessage(oid) !in messages
    ensures Safe(keys - {oid}, messages)
    decreases |messages|
  {
    if messages != [] {
      var m := messages[0];
      var next := if m.verb == 1 then keys + {m.data.body.id} else keys;
      SafeWithout(next, oid, messages[1..]);
      assert m.verb == 2 ==> m == RemoveMessage(m.data.oid);
      assert m.verb == 1 ==> next - {oid} <= keys - {oid} + {m.data.body.id};
      if m.verb == 1 {
        SafeMore(next - {oid}, keys - {oid} + {m.data.body.id}, messages[1..]);
      }
    }
  }

  /** A stop message stops the run, but never quietly. */
  lemma StopIsAnError(objects: Objects, endRun: bool, data: Data, later: seq<Message>)
    ensures var d := Drain(objects, endRun, [Message(0, 2, 1, data)] + later);
            d.outcome == BadNoun && d.endRun && d.rest == later
  {
  }

  predicate Adds(messages: seq<Message>, id: nat) {
    exists k :: 0 <= k < |messages| && messages[k].data.Object? && messages[k].data.body.id == id
  }

  /** Who is in the map after a drain: an object that was there and is not added
      again is alive exactly if it was alive and nobody asked for its removal. */
  lemma {:induction false} DrainMarks(objects: Objects, endRun: bool, messages: seq<Message>, id: nat)
    requires id in objects && objects[id].id == id && Safe(objects.Keys, messages) && !Adds(messages, id)
    ensures var d := Drain(objects, endRun, messages).objects;
            && id in d && d[id].id == id && d[id].motion == objects[id].motion
            && (d[id].alive <==> objects[id].alive && RemoveMessage(id) !in messages)
    decreases |messages|
  {
    if messages != [] {
      var m := messages[0];
      var (o, e, outcome) := Handle(objects, endRun, m);
      assert o.Keys == if m.verb == 1 then objects.Keys + {m.data.body.id} else objects.Keys;
      forall k | 0 <= k < |messages[1..]|
        ensures !(messages[1..][k].data.Object? && messages[1..][k].data.body.id == id)
      {
        assert messages[k + 1] == messages[1..][k];
      }
      DrainMarks(o, e, messages[1..], id);
      assert messages == [m] + messages[1..];
    }
  }

  lemma {:induction false} DrainAppend(objects: Objects, endRun: bool, first: seq<Message>, second: seq<Message>)
    requires Drain(objects, endRun, first).outcome == Done
    ensures Drain(objects, endRun, first + second)
            == var d := Drain(objects, endRun, first); Drain(d.objects, d.endRun, second)
    decreases |first|
  {
    if first == [] {
      assert first + second == second;
    } else {
      var (o, e, outcome) := Handle(objects, endRun, first[0]);
      assert (first + second)[1..] == first[1..] + second;
      DrainAppend(o, e, first[1..], second);
    }
  }

  lemma {:induction false} SafeFront(keys: set<nat>, first: seq<Message>, second: seq<Message>)
    requires Safe(keys, first + second)
    ensures Safe(keys, first)
    decreases |first|
  {
    if first != [] {
      var m := first[0];
      assert (first + second)[1..] == first[1..] + second;
      SafeFront(if m.verb == 1 then keys + {m.data.body.id} else keys, first[1..], second);
    }
  }

  /** What an addition puts in the map: the object as it was given, alive exactly if
      it was and no later message asks for its removal.  The last addition of an id
      counts, whatever came before. */
  lemma AdditionArrives(objects: Objects, endRun: bool, pre: seq<Message>, b: Body, post: seq<Message>)
    requires Safe(objects.Keys, pre + ([AddMessage(b)] + post)) && !Adds(post, b.id)
    ensures var d := Drain(objects, endRun, pre + ([AddMessage(b)] + post)).objects;
            && b.id in d && d[b.id].id == b.id && d[b.id].motion == b.motion
            && (d[b.id].alive <==> b.alive && RemoveMessage(b.id) !in post)
  {
    var all := pre + ([AddMessage(b)] + post);
    SafeFront(objects.Keys, pre, [AddMessage(b)] + post);
    DrainSucceedsIffSafe(objects, endRun, pre);
    DrainSucceedsIffSafe(objects, endRun, all);
    DrainAppend(objects, endRun, pre, [AddMessage(b)] + post);
    var d := Drain(objects, endRun, pre);
    var o := Handle(d.objects, d.endRun, AddMessage(b)).0;
    assert ([AddMessage(b)] + post)[1..] == post;
    DrainSucceedsIffSafe(o, d.endRun, post);
    DrainMarks(o, d.endRun, post, b.id);
  }

  /** An error leaves the map as the messages before the bad one made it, and the
      messages behind it in the queue. */
  lemma {:induction false} DrainStopsAt(objects: Objects, endRun: bool, messages: seq<Message>) returns (n: nat)
    requires Drain(objects, endRun, messages).outcome != Done
    ensures var d := Drain(objects, endRun, messages);
      && n < |messages| && d.rest == messages[n + 1..]
      && Drain(objects, endRun, messages[..n]).outcome == Done
      && d.objects == Drain(objects, endRun, messages[..n]).objects
    decreases |messages|
  {
    var (o, e, outcome) := Handle(objects, endRun, messages[0]);
    if outcome != Done {
      n := 0;
      assert messages[..0] == [];
    } else {
      var k := DrainStopsAt(o, e, messages[1..]);
      n := k + 1;
      assert messages[..n][1..] == messages[1..][..k];
      assert messages[1..][k + 1..] == messages[n + 1..];
    }
  }

  // ----- the worker phases -----

  /** `o->alive = !o->tick(quanta_duration)` */
  function TickOne(r: Rules, b: Body): Body {
    var (m, kill) := TickMotion(r.pre(b.id), b.motion, r.q);
    Body(b.id, !kill, m)
  }

  function ApplyOne(r: Rules, b: Body): Body {
    var (m, kill) := ApplyMotion(r.post(b.id), b.motion, r.q);
    Body(b.id, !kill, m)
  }

  /** The simple sequential loops. */
  function TickAll(r: Rules, objects: Objects): Objects { map i | i in objects :: TickOne(r, objects[i]) }
  function ApplyAll(r: Rules, objects: Objects): Objects { map i | i in objects :: ApplyOne(r, objects[i]) }

  predicate Hits(r: Rules, objects: Objects, pair: (nat, nat)) {
    pair.0 in objects && pair.1 in objects && CheckCollision(objects[pair.0].motion, objects[pair.1].motion, r.q)
  }

  /** The jobs of the workers: one object changed in place, or one record pushed. */
  function OneTick(r: Rules): (Objects, nat) -> Objects {
    (w: Objects, i: nat) => if i in w then w[i := TickOne(r, w[i])] else w
  }
  function OneApply(r: Rules): (Objects, nat) -> Objects {
    (w: Objects, i: nat) => if i in w then w[i := ApplyOne(r, w[i])] else w
  }
  function OneCheck(r: Rules, objects: Objects): (multiset<(nat, nat)>, (nat, nat)) -> multiset<(nat, nat)> {
    (bag: multiset<(nat, nat)>, pair: (nat, nat)) => if Hits(r, objects, pair) then bag + multiset{pair} else bag
  }

  lemma JobsCommute(r: Rules, objects: Objects)
    ensures Commutes(OneTick(r)) && Commutes(OneApply(r)) && Commutes(OneCheck(r, objects))
  {
    forall w: Objects, i: nat, j: nat
      ensures OneTick(r)(OneTick(r)(w, i), j) == OneTick(r)(OneTick(r)(w, j), i)
    {
    }
    forall w: Objects, i: nat, j: nat
      ensures OneApply(r)(OneApply(r)(w, i), j) == OneApply(r)(OneApply(r)(w, j), i)
    {
    }
    var f := OneCheck(r, objects);
    forall w: multiset<(nat, nat)>, i: (nat, nat), j: (nat, nat)
      ensures f(f(w, i), j) == f(f(w, j), i)
    {
    }
  }

  /** Ticking the listed objects in that order. */
  lemma {:induction false} TickInOrder(r: Rules, objects: Objects, ids: seq<nat>)
    requires Ascending(ids) && forall i :: i in ids ==> i in objects
    ensures Perform(OneTick(r), objects, ids)
            == map i | i in objects :: if i in ids then TickOne(r, objects[i]) else objects[i]
    decreases |ids|
  {
    if ids != [] {
      var last := |ids| - 1;
      TickInOrder(r, objects, ids[..last]);
      assert ids == ids[..last] + [ids[last]];
      PerformAppend(OneTick(r), objects, ids[..last], [ids[last]]);
      assert ids[last] !in ids[..last];
      var w := Perform(OneTick(r), objects, ids[..last]);
      assert Perform(OneTick(r), w, [ids[last]]) == OneTick(r)(w, ids[last]);
    }
  }

  lemma {:induction false} ApplyInOrder(r: Rules, objects: Objects, ids: seq<nat>)
    requires Ascending(ids) && forall i :: i in ids ==> i in objects
    ensures Perform(OneApply(r), objects, ids)
            == map i | i in objects :: if i in ids then ApplyOne(r, objects[i]) else objects[i]
    decreases |ids|
  {
    if ids != [] {
      var last := |ids| - 1;
      ApplyInOrder(r, objects, ids[..last]);
      assert ids == ids[..last] + [ids[last]];
      PerformAppend(OneApply(r), objects, ids[..last], [ids[last]]);
      assert ids[last] !in ids[..last];
      var w := Perform(OneApply(r), objects, ids[..last]);
      assert Perform(OneApply(r), w, [ids[last]]) == OneApply(r)(w, ids[last]);
    }
  }

  lemma {:induction false} CheckCount(
      r: Rules, objects: Objects, bag: multiset<(nat, nat)>, pairs: seq<(nat, nat)>, p: (nat, nat))
    ensures Perform(OneCheck(r, objects), bag, pairs)[p]
            == bag[p] + if Hits(r, objects, p) then multiset(pairs)[p] else 0
    decreases |pairs|
  {
    if pairs != [] {
      CheckCount(r, objects, OneCheck(r, objects)(bag, pairs[0]), pairs[1..], p);
      assert pairs == [pairs[0]] + pairs[1..];
    }
  }

  /** The map's keys in the order of its iterators. */
  ghost predicate Enumerates(ids: seq<nat>, objects: Objects) {
    Ascending(ids) && forall i :: i in ids <==> i in objects
  }

  /** Whatever order the workers tick the objects in, the world is that of the
      sequential loop. */
  lemma AnyTickOrder(r: Rules, objects: Objects, ids: seq<nat>, order: seq<nat>)
    requires Enumerates(ids, objects) && multiset(order) == multiset(ids)
    ensures Perform(OneTick(r), objects, order) == TickAll(r, objects)
  {
    JobsCommute(r, objects);
    OrderDoesNotMatter(OneTick(r), objects, order, ids);
    TickInOrder(r, objects, ids);
  }

  lemma AnyApplyOrder(r: Rules, objects: Objects, ids: seq<nat>, order: seq<nat>)
    requires Enumerates(ids, objects) && multiset(order) == multiset(ids)
    ensures Perform(OneApply(r), objects, order) == ApplyAll(r, objects)
  {
    JobsCommute(r, objects);
    OrderDoesNotMatter(OneApply(r), objects, order, ids);
    ApplyInOrder(r, objects, ids);
  }

  /** Exactly the colliding pairs, each once, the lower id first. */
  ghost predicate Recorded(r: Rules, objects: Objects, bag: multiset<(nat, nat)>) {
    forall x: nat, y: nat :: bag[(x, y)] == if x < y && Hits(r, objects, (x, y)) then 1 else 0
  }

  /** Whatever order the workers compare the pairs in, the records are the
      colliding pairs. */
  lemma AnyCheckOrder(r: Rules, objects: Objects, ids: seq<nat>, order: seq<(nat, nat)>)
    requires Enumerates(ids, objects) && multiset(order) == multiset(AllPairs(ids, |ids|))
    ensures Recorded(r, objects, Perform(OneCheck(r, objects), multiset{}, order))
  {
    forall x: nat, y: nat
      ensures Perform(OneCheck(r, objects), multiset{}, order)[(x, y)]
              == if x < y && Hits(r, objects, (x, y)) then 1 else 0
    {
      CheckCount(r, objects, multiset{}, order, (x, y));
      EachPairOnce(ids, x, y);
    }
  }

  // ----- resolve_collisions -----

  function Removals(killA: bool, a: nat, killB: bool, b: nat): seq<Message> {
    (if killA then [RemoveMessage(a)] else []) + (if killB then [RemoveMessage(b)] else [])
  }

  /** One record: the objects afterwards and the removals it asks for. */
  function ResolveOne(r: Rules, objects: Objects, rec: (nat, nat)): (Objects, seq<Message>)
    requires rec.0 in objects && rec.1 in objects
  {
    var a, b := objects[rec.0], objects[rec.1];
    var killA, killB := r.verdict(a, b), r.verdict(b, a);
    var moved :=
      if killA || killB then objects
      else
        var (ma, mb) := PushApart(a.motion, b.motion, r.sqrt(DistSq(a.motion.location, b.motion.location)), r.nan);
        objects[rec.0 := a.(motion := ma)][rec.1 := b.(motion := mb)];
    (moved, Removals(killA, a.id, killB, b.id))
  }

  /** One of the two says that it dies. */
  predicate Kills(r: Rules, objects: Objects, rec: (nat, nat))
    requires rec.0 in objects && rec.1 in objects
  {
    r.verdict(objects[rec.0], objects[rec.1]) || r.verdict(objects[rec.1], objects[rec.0])
  }

  function Range(r: Rules, objects: Objects, rec: (nat, nat)): real
    requires rec.0 in objects && rec.1 in objects
  {
    r.sqrt(DistSq(objects[rec.0].motion.location, objects[rec.1].motion.location))
  }

  function RadiusSum(objects: Objects, rec: (nat, nat)): real
    requires rec.0 in objects && rec.1 in objects
  {
    objects[rec.0].motion.radius + objects[rec.1].motion.radius
  }

  /** The record is one of two survivors that overlap when its turn comes. */
  predicate Separates(r: Rules, objects: Objects, rec: (nat, nat))
    requires rec.0 in objects && rec.1 in objects
  {
    !Kills(r, objects, rec) && Range(r, objects, rec) < RadiusSum(objects, rec)
  }

  /** Otherwise the record moves nobody. */
  lemma OthersStay(r: Rules, objects: Objects, rec: (nat, nat))
    requires rec.0 in objects && rec.1 in objects && !Separates(r, objects, rec)
    ensures ResolveOne(r, objects, rec).0 == objects
  {
    var a, b := objects[rec.0], objects[rec.1];
    assert objects[rec.0 := a][rec.1 := b] == objects;
  }

  /** Two survivors that overlap with distinct centres are left exactly the sum of
      their radii apart, around the same midpoint, where the root of the squared
      distance is the non-negative number with that square. */
  lemma SurvivorsSeparate(r: Rules, objects: Objects, rec: (nat, nat))
    requires rec.0 in objects && rec.1 in objects && rec.0 != rec.1 && Separates(r, objects, rec)
    requires var a, b := objects[rec.0].motion, objects[rec.1].motion;
             var range := Range(r, objects, rec);
             0.0 < range && range * range == DistSq(a.location, b.location)
    ensures var a, b := objects[rec.0].motion, objects[rec.1].motion;
            var (o, own) := ResolveOne(r, objects, rec);
            && own == []
            && DistSq(o[rec.0].motion.location, o[rec.1].motion.location)
               == RadiusSum(objects, rec) * RadiusSum(objects, rec)
            && o[rec.0].motion.location.Add(o[rec.1].motion.location) == a.location.Add(b.location)
            && o[rec.0] == objects[rec.0].(motion := a.(location := o[rec.0].motion.location))
            && o[rec.1] == objects[rec.1].(motion := b.(location := o[rec.1].motion.location))
            && forall i :: i in objects && i != rec.0 && i != rec.1 ==> o[i] == objects[i]
  {
    var a, b := objects[rec.0].motion, objects[rec.1].motion;
    OverlapResolved(a, b, r.sqrt(DistSq(a.location, b.location)), r.nan);
  }

  function Larger(x: real, y: real): real { if x < y then y else x }

  /** After the record of two survivors with distinct centres their distance is the
      larger of the distance before and the sum of their radii. */
  lemma DistanceAfter(r: Rules, objects: Objects, rec: (nat, nat), range: real, far: real)
    requires rec.0 in objects && rec.1 in objects && rec.0 != rec.1 && !Kills(r, objects, rec)
    requires range == Range(r, objects, rec) && 0.0 < range
    requires range * range == DistSq(objects[rec.0].motion.location, objects[rec.1].motion.location)
    requires far == Larger(range, RadiusSum(objects, rec))
    ensures var o := ResolveOne(r, objects, rec).0;
            DistSq(o[rec.0].motion.location, o[rec.1].motion.location) == far * far
  {
    if Separates(r, objects, rec) {
      SurvivorsSeparate(r, objects, rec);
    } else {
      OthersStay(r, objects, rec);
    }
  }

  predicate Present(objects: Objects, recs: seq<(nat, nat)>) {
    forall k :: 0 <= k < |recs| ==> recs[k].0 in objects && recs[k].1 in objects
  }

  function Resolve(r: Rules, objects: Objects, recs: seq<(nat, nat)>): (res: (Objects, seq<Message>))
    requires Present(objects, recs)
  {
    if recs == [] then (objects, [])
    else
      var (o, m) := ResolveOne(r, objects, recs[0]);
      var (o2, m2) := Resolve(r, o, recs[1..]);
      (o2, m + m2)
  }

  /** The object is in no record that, when its turn comes, is one of two overlapping
      survivors. */
  predicate NeverSeparated(r: Rules, objects: Objects, recs: seq<(nat, nat)>, id: nat)
    requires Present(objects, recs)
    decreases |recs|
  {
    recs == [] ||
    ((id == recs[0].0 || id == recs[0].1 ==> !Separates(r, objects, recs[0])) &&
     NeverSeparated(r, ResolveOne(r, objects, recs[0]).0, recs[1..], id))
  }

  /** Such an object is left as it was. */
  lemma {:induction false} UntouchedStays(r: Rules, objects: Objects, recs: seq<(nat, nat)>, id: nat)
    requires Present(objects, recs) && id in objects && NeverSeparated(r, objects, recs, id)
    ensures id in Resolve(r, objects, recs).0 && Resolve(r, objects, recs).0[id] == objects[id]
    decreases |recs|
  {
    if recs != [] {
      if !Separates(r, objects, recs[0]) {
        OthersStay(r, objects, recs[0]);
      }
      UntouchedStays(r, ResolveOne(r, objects, recs[0]).0, recs[1..], id);
    }
  }

  /** Every key is the id of its object. */
  predicate WellKeyed(objects: Objects) {
    forall i :: i in objects ==> objects[i].id == i
  }

  /** Resolution moves objects and asks for removals; it adds, drops, renames and
      kills nobody, and every removal it asks for names an object of the map. */
  lemma {:induction false} ResolveKeeps(r: Rules, objects: Objects, recs: seq<(nat, nat)>)
    requires Present(objects, recs) && WellKeyed(objects)
    ensures var (o, m) := Resolve(r, objects, recs);
            && o.Keys == objects.Keys && WellKeyed(o)
            && (forall i :: i in objects ==> o[i].alive == objects[i].alive)
            && (forall k :: 0 <= k < |m| ==> exists i :: i in objects && m[k] == RemoveMessage(i))
    decreases |recs|
  {
    if recs != [] {
      var (o, m) := ResolveOne(r, objects, recs[0]);
      assert o.Keys == objects.Keys;
      ResolveKeeps(r, o, recs[1..]);
      forall k | 0 <= k < |m| ensures exists i :: i in objects && m[k] == RemoveMessage(i) {
        assert m[k] == RemoveMessage(recs[0].0) || m[k] == RemoveMessage(recs[0].1);
      }
    }
  }

  /** `apply_collision` looks at the pair only, not at where the objects are. */
  ghost predicate PairOnly(verdict: (Body, Body) -> bool) {
    forall a: Body, b: Body, a2: Body, b2: Body ::
      a.id == a2.id && b.id == b2.id ==> verdict(a, b) == verdict(a2, b2)
  }

  predicate Condemns(r: Rules, objects: Objects, rec: (nat, nat), id: nat)
    requires rec.0 in objects && rec.1 in objects
  {
    || (id == rec.0 && r.verdict(objects[rec.0], objects[rec.1]))
    || (id == rec.1 && r.verdict(objects[rec.1], objects[rec.0]))
  }

  /** Some record condemns the object. */
  ghost predicate Condemned(r: Rules, objects: Objects, recs: seq<(nat, nat)>, id: nat)
    requires Present(objects, recs)
  {
    exists k :: 0 <= k < |recs| && Condemns(r, objects, recs[k], id)
  }

  lemma CondemnedFirst(r: Rules, objects: Objects, recs: seq<(nat, nat)>, id: nat)
    requires Present(objects, recs) && recs != []
    ensures Condemned(r, objects, recs, id) <==>
              Condemns(r, objects, recs[0], id) || Condemned(r, objects, recs[1..], id)
  {
  }

  /** Moving objects does not change whom a record condemns. */
  lemma CondemnedMoved(r: Rules, objects: Objects, moved: Objects, recs: seq<(nat, nat)>, id: nat)
    requires PairOnly(r.verdict) && objects.Keys == moved.Keys && Present(objects, recs)
    requires forall i :: i in objects ==> moved[i].id == objects[i].id
    ensures Present(moved, recs)
    ensures Condemned(r, moved, recs, id) <==> Condemned(r, objects, recs, id)
  {
  }

  /** The removals asked for are exactly those of the condemned objects. */
  lemma {:induction false} RemovalsAreCondemned(r: Rules, objects: Objects, recs: seq<(nat, nat)>, id: nat)
    requires Present(objects, recs) && WellKeyed(objects) && PairOnly(r.verdict)
    ensures RemoveMessage(id) in Resolve(r, objects, recs).1 <==> Condemned(r, objects, recs, id)
    decreases |recs|
  {
    if recs != [] {
      var (o, m) := ResolveOne(r, objects, recs[0]);
      assert o.Keys == objects.Keys && WellKeyed(o);
      RemovalsAreCondemned(r, o, recs[1..], id);
      CondemnedFirst(r, objects, recs, id);
      CondemnedMoved(r, objects, o, recs[1..], id);
      assert RemoveMessage(id) in m <==> Condemns(r, objects, recs[0], id);
    }
  }

  /** Who is removed does not depend on the order in which the workers recorded
      the collisions. */
  lemma RemovalsIgnoreOrder(r: Rules, objects: Objects, recs: seq<(nat, nat)>, other: seq<(nat, nat)>, id: nat)
    requires Present(objects, recs) && Present(objects, other) && WellKeyed(objects) && PairOnly(r.verdict)
    requires multiset(recs) == multiset(other)
    ensures RemoveMessage(id) in Resolve(r, objects, recs).1 <==> RemoveMessage(id) in Resolve(r, objects, other).1
  {
    RemovalsAreCondemned(r, objects, recs, id);
    RemovalsAreCondemned(r, objects, other, id);
    SameRecords(r, objects, recs, other, id);
    SameRecords(r, objects, other, recs, id);
  }

  lemma SameRecords(r: Rules, objects: Objects, recs: seq<(nat, nat)>, other: seq<(nat, nat)>, id: nat)
    requires Present(objects, recs) && Present(objects, other) && multiset(recs) == multiset(other)
    ensures Condemned(r, objects, recs, id) ==> Condemned(r, objects, other, id)
  {
    if Condemned(r, objects, recs, id) {
      var k :| 0 <= k < |recs| && Condemns(r, objects, recs[k], id);
      assert recs[k] in multiset(other);
      var j :| 0 <= j < |other| && other[j] == recs[k];
    }
  }
}
