/** The engine itself: `sim_core` with its fields, changed in place. */
module SimCores {
  import opened Physics
  import opened Separation
  import opened QueueInvariants
  import opened Schedule
  import opened SimWorld
  import opened SimRun

  class SimCore {
    const rules: Rules
    var allObjects: Objects
    var messages: seq<Message>
    var collisions: seq<(nat, nat)>
    var quanta: nat
    var endRun: bool
    var isRunning: bool
    var workerCount: nat

    constructor (rules: Rules)
      ensures this.rules == rules && allObjects == map[] && messages == [] && collisions == []
      ensures quanta == 0 && !endRun && !isRunning && workerCount == 2
    {
      this.rules := rules;
      allObjects, messages, collisions := map[], [], [];
      quanta, endRun, isRunning, workerCount := 0, false, false, 2;
    }

    function View(): Core
      reads this
    {
      Core(allObjects, messages, endRun)
    }

    /** One iteration of the game cycle in `run_sim`.  The orders arrange the
        objects that start the turn, and their pairs.  Other threads push `early`,
        group by group, while the engine drains its messages, and `late` while it
        resolves the collisions. */
    method OneTurn(tickOrder: seq<nat>, checkOrder: seq<(nat, nat)>, applyOrder: seq<nat>,
                   early: seq<seq<Message>>, late: seq<seq<Message>>)
        returns (outcome: Outcome, ghost recs: seq<(nat, nat)>)
      requires isRunning && workerCount > 0 && CoreInv(View())
      requires multiset(tickOrder) == multiset(Started(View()).Keys) == multiset(applyOrder)
      requires forall x: nat, y: nat ::
        multiset(checkOrder)[(x, y)] == if x < y && x in Started(View()) && y in Started(View()) then 1 else 0
      requires forall m :: m in Arrived(early, |messages|) || m in Flatten(late) ==> Polite(Started(View()).Keys, m)
      modifies this
      ensures outcome == Done && ValidRecords(rules, old(View()), recs)
      ensures var input := Input(recs, Earlier(Arrived(early, |old(messages)|), late));
              View() == Turn(rules, old(View()), input) && CoreInv(View())
      ensures collisions == [] && quanta == old(quanta) + 1
      ensures isRunning && workerCount == old(workerCount)
    {
      ghost var before := View();
      ghost var first := Arrived(early, |messages|);
      quanta := quanta + 1;
      outcome := StartTurn(tickOrder, checkOrder, applyOrder, early);
      recs := collisions;
      TurnWithArrivals(rules, before, recs, first, late);
      ghost var resolved := Resolve(rules, allObjects, recs);
      var n := ResolveCollisions(late);
      assert View() == Core(resolved.0, first + Interleave(resolved.1, late), before.endRun);
    }

    /** The turn up to the resolution. */
    method StartTurn(tickOrder: seq<nat>, checkOrder: seq<(nat, nat)>, applyOrder: seq<nat>, early: seq<seq<Message>>)
        returns (outcome: Outcome)
      requires workerCount > 0 && CoreInv(View())
      requires multiset(tickOrder) == multiset(Started(View()).Keys) == multiset(applyOrder)
      requires forall x: nat, y: nat ::
        multiset(checkOrder)[(x, y)] == if x < y && x in Started(View()) && y in Started(View()) then 1 else 0
      modifies this`allObjects, this`messages, this`collisions, this`endRun
      ensures outcome == Done && messages == Arrived(early, |old(messages)|) && endRun == old(endRun)
      ensures allObjects == Moved(rules, old(View())) && ValidRecords(rules, old(View()), collisions)
    {
      DrainSucceedsIffSafe(allObjects, endRun, messages);
      outcome := TurnInit(early);
      assert allObjects == Started(old(View()));
      Tick(tickOrder, checkOrder, applyOrder);
    }

    /** An addition keeps the promise that the queue can be drained without error. */
    method AddObject(b: Body)
      modifies this`messages, this`allObjects
      ensures old(CoreInv(View())) ==> CoreInv(View())
      ensures messages == if isRunning then old(messages) + [AddMessage(b)] else old(messages)
      ensures allObjects == if isRunning then old(allObjects) else old(allObjects)[b.id := b]
    {
      if isRunning {
        SafeAppend(allObjects.Keys, messages, AddMessage(b));
        messages := messages + [AddMessage(b)];
      } else {
        if CoreInv(View()) {
          SafeMore(allObjects.Keys, allObjects.Keys + {b.id}, messages);
        }
        allObjects := allObjects[b.id := b];
        assert allObjects.Keys == old(allObjects.Keys) + {b.id};
      }
    }

    /** A removal keeps it exactly if the object is in the map when the message's turn
        comes: it is there, or an earlier message brings it.  While the engine does
        not run it is enough that no message left in the queue removes it too. */
    method RemoveObj(oid: nat)
      modifies this`messages, this`allObjects
      ensures old(CoreInv(View())) && isRunning ==>
        (CoreInv(View()) <==> oid in old(allObjects) || oid in AddedIds(old(messages)))
      ensures old(CoreInv(View())) && !isRunning && RemoveMessage(oid) !in messages ==> CoreInv(View())
      ensures messages == if isRunning then old(messages) + [RemoveMessage(oid)] else old(messages)
      ensures allObjects == if isRunning then old(allObjects) else old(allObjects) - {oid}
    {
      if isRunning {
        SafeAppend(allObjects.Keys, messages, RemoveMessage(oid));
        messages := messages + [RemoveMessage(oid)];
      } else {
        if CoreInv(View()) && RemoveMessage(oid) !in messages {
          SafeWithout(allObjects.Keys, oid, messages);
        }
        allObjects := allObjects - {oid};
        assert allObjects.Keys == old(allObjects.Keys) - {oid};
      }
    }

    /** Another thread's pushes. */
    method Arrive(groups: seq<seq<Message>>, k: nat)
      modifies this`messages
      ensures messages == old(messages) + if k < |groups| then groups[k] else []
    {
      if k < |groups| {
        messages := messages + groups[k];
      }
    }

    /** Drains the messages that were queued when it started, in order, while other
        threads push more; an error leaves the rest of the queue and skips the
        clean-up.  What arrives meanwhile stays for the next turn. */
    method TurnInit(arrivals: seq<seq<Message>>) returns (outcome: Outcome)
      modifies this`messages, this`allObjects, this`collisions, this`endRun
      ensures var d := Drain(old(allObjects), old(endRun), old(messages));
              && outcome == d.outcome && endRun == d.endRun
              && |d.rest| <= |old(messages)|
              && messages == d.rest + Arrived(arrivals, |old(messages)| - |d.rest|)
              && (outcome == Done ==> d.rest == [] && allObjects == Sweep(d.objects) && collisions == [])
              && (outcome != Done ==> allObjects == d.objects && collisions == old(collisions))
    {
      var i := |messages|;
      var k := 0;
      ghost var left := messages;
      while i > 0
        invariant 0 <= i == |left| && i + k == |old(messages)|
        invariant messages == left + Arrived(arrivals, k)
        invariant collisions == old(collisions)
        invariant Drain(allObjects, endRun, left) == Drain(old(allObjects), old(endRun), old(messages))
        decreases i
      {
        Arrive(arrivals, k);
        ArrivedNext(arrivals, k);
        k := k + 1;
        assert messages == left + Arrived(arrivals, k);
        var msg := messages[0];
        messages := messages[1..];
        left := left[1..];
        assert messages == left + Arrived(arrivals, k);
        var (o, e, result) := Handle(allObjects, endRun, msg);
        allObjects, endRun := o, e;
        if result != Done {
          return result;
        }
        i := i - 1;
      }
      collisions := [];
      EraseDead();
      return Done;
    }

    /** The deletion sweep. */
    method EraseDead()
      modifies this`allObjects
      ensures allObjects == Sweep(old(allObjects))
    {
      var todo := allObjects.Keys;
      while todo != {}
        invariant todo <= allObjects.Keys <= old(allObjects).Keys
        invariant forall i :: i in allObjects ==> allObjects[i] == old(allObjects)[i]
        invariant forall i :: i in old(allObjects) && (i in todo || old(allObjects)[i].alive) ==> i in allObjects
        invariant forall i :: i in allObjects && i !in todo ==> allObjects[i].alive
        decreases todo
      {
        var i :| i in todo;
        if !allObjects[i].alive {
          allObjects := allObjects - {i};
        }
        todo := todo - {i};
      }
    }

    /** One turn of the workers.  The three orders are the logs of the three
        phases: what the barrier promises of them is that each is an arrangement
        of the jobs of the packets. */
    method Tick(tickOrder: seq<nat>, checkOrder: seq<(nat, nat)>, applyOrder: seq<nat>)
      requires workerCount > 0 && collisions == []
      requires multiset(tickOrder) == multiset(allObjects.Keys) == multiset(applyOrder)
      requires forall x: nat, y: nat ::
        multiset(checkOrder)[(x, y)] == if x < y && x in allObjects && y in allObjects then 1 else 0
      modifies this`allObjects, this`collisions
      ensures allObjects == ApplyAll(rules, TickAll(rules, old(allObjects)))
      ensures Recorded(rules, TickAll(rules, old(allObjects)), multiset(collisions))
    {
      var ids := SortedIds(allObjects.Keys);
      IdsAreKeys(ids, allObjects);
      var packets := Packetise(ids, workerCount);
      PacketsHoldEveryJob(ids, workerCount);
      assert multiset(tickOrder) == Jobs(packets);
      TickWorkers(tickOrder);
      AnyTickOrder(rules, old(allObjects), ids, tickOrder);
      CollisionCheck(ids, checkOrder);
      ghost var ticked := allObjects;
      ApplyWorkers(applyOrder);
      AnyApplyOrder(rules, ticked, ids, applyOrder);
    }

    /** `do_tick`, all workers together. */
    method TickWorkers(order: seq<nat>)
      modifies this`allObjects
      ensures allObjects == Perform(OneTick(rules), old(allObjects), order)
    {
      var k := 0;
      while k < |order|
        invariant 0 <= k <= |order|
        invariant Perform(OneTick(rules), allObjects, order[k..]) == Perform(OneTick(rules), old(allObjects), order)
      {
        var o := order[k];
        if o in allObjects {
          allObjects := allObjects[o := TickOne(rules, allObjects[o])];
        }
        k := k + 1;
      }
    }

    /** `do_apply`, all workers together. */
    method ApplyWorkers(order: seq<nat>)
      modifies this`allObjects
      ensures allObjects == Perform(OneApply(rules), old(allObjects), order)
    {
      var k := 0;
      while k < |order|
        invariant 0 <= k <= |order|
        invariant Perform(OneApply(rules), allObjects, order[k..]) == Perform(OneApply(rules), old(allObjects), order)
      {
        var o := order[k];
        if o in allObjects {
          allObjects := allObjects[o := ApplyOne(rules, allObjects[o])];
        }
        k := k + 1;
      }
    }

    /** `do_collision_check`, all workers together. */
    method CheckWorkers(order: seq<(nat, nat)>)
      requires collisions == []
      modifies this`collisions
      ensures multiset(collisions) == Perform(OneCheck(rules, allObjects), multiset{}, order)
    {
      var k := 0;
      ghost var check := OneCheck(rules, allObjects);
      while k < |order|
        invariant 0 <= k <= |order|
        invariant Perform(check, multiset(collisions), order[k..]) == Perform(check, multiset{}, order)
      {
        var p := order[k];
        if Hits(rules, allObjects, p) {
          collisions := collisions + [p];
        }
        k := k + 1;
      }
    }

    method CollisionCheck(ids: seq<nat>, order: seq<(nat, nat)>)
      requires workerCount > 0 && Enumerates(ids, allObjects) && collisions == []
      requires forall x: nat, y: nat ::
        multiset(order)[(x, y)] == if x < y && x in allObjects && y in allObjects then 1 else 0
      modifies this`collisions
      ensures Recorded(rules, allObjects, multiset(collisions))
    {
      var pairs := ListPairs(ids);
      PairsInAnyOrder(ids, order);
      var packets := Packetise(pairs, workerCount);
      PacketsHoldEveryJob(pairs, workerCount);
      assert multiset(order) == Jobs(packets);
      CheckWorkers(order);
      AnyCheckOrder(rules, allObjects, ids, order);
    }

    /** Empties the collision queue, in exactly as many iterations as it has records,
        while other threads push messages before and between the removals. */
    method ResolveCollisions(arrivals: seq<seq<Message>>) returns (iterations: nat)
      requires isRunning && Present(allObjects, collisions) && WellKeyed(allObjects)
      modifies this`allObjects, this`messages, this`collisions
      ensures collisions == [] && iterations == |old(collisions)|
      ensures var (o, own) := Resolve(rules, old(allObjects), old(collisions));
              allObjects == o && messages == old(messages) + Interleave(own, arrivals)
    {
      iterations := 0;
      var k := 0;
      ghost var base := messages;
      ghost var own: seq<Message> := [];
      ghost var goal := Resolve(rules, allObjects, collisions);
      while |collisions| > 0
        invariant iterations + |collisions| == |old(collisions)|
        invariant Present(allObjects, collisions) && WellKeyed(allObjects)
        invariant k == |own| && messages == base + Weave(own, arrivals)
        invariant goal.0 == Resolve(rules, allObjects, collisions).0
        invariant goal.1 == own + Resolve(rules, allObjects, collisions).1
        decreases |collisions|
      {
        var crec := collisions[0];
        assert collisions == [crec] + collisions[1..];
        collisions := collisions[1..];
        ghost var more;
        k, more := ResolveNext(crec, collisions, arrivals, k);
        WeaveGrows(base, own, more, arrivals);
        JoinThree(own, more, Resolve(rules, allObjects, collisions).1);
        own := own + more;
        iterations := iterations + 1;
      }
      messages := messages + Flatten(Later(arrivals, k));
      InterleaveIsWeave(own, arrivals);
      JoinThree(base, Weave(own, arrivals), Flatten(Later(arrivals, k)));
      assert goal.1 == own;
    }

    /** One record, seen from the whole queue. */
    method ResolveNext(crec: (nat, nat), ghost rest: seq<(nat, nat)>, arrivals: seq<seq<Message>>, k: nat)
        returns (next: nat, ghost own: seq<Message>)
      requires isRunning && Present(allObjects, [crec] + rest) && WellKeyed(allObjects)
      modifies this`allObjects, this`messages
      ensures Present(allObjects, rest) && WellKeyed(allObjects)
      ensures Resolve(rules, old(allObjects), [crec] + rest).0 == Resolve(rules, allObjects, rest).0
      ensures Resolve(rules, old(allObjects), [crec] + rest).1 == own + Resolve(rules, allObjects, rest).1
      ensures next == k + |own| && messages == old(messages) + Weave(own, Later(arrivals, k))
    {
      ghost var recs := [crec] + rest;
      assert recs[0] == crec && recs[1..] == rest;
      assert forall j :: 0 <= j < |rest| ==> recs[j + 1] == rest[j];
      own := ResolveOne(rules, allObjects, crec).1;
      next := ResolveRecord(crec, arrivals, k);
    }

    /** The body of the resolution loop; k groups have arrived before. */
    method ResolveRecord(crec: (nat, nat), arrivals: seq<seq<Message>>, k: nat) returns (next: nat)
      requires isRunning && crec.0 in allObjects && crec.1 in allObjects && WellKeyed(allObjects)
      modifies this`allObjects, this`messages
      ensures var (o, own) := ResolveOne(rules, old(allObjects), crec);
              && allObjects == o && next == k + |own|
              && messages == old(messages) + Weave(own, Later(arrivals, k))
      ensures allObjects.Keys == old(allObjects).Keys && WellKeyed(allObjects)
    {
      var a, b := allObjects[crec.0], allObjects[crec.1];
      var killA := rules.verdict(a, b);
      var killB := rules.verdict(b, a);
      if !(killA || killB) {
        var range := rules.sqrt(DistSq(a.motion.location, b.motion.location));
        var (ma, mb) := PushApart(a.motion, b.motion, range, rules.nan);
        allObjects := allObjects[crec.0 := a.(motion := ma)];
        allObjects := allObjects[crec.1 := b.(motion := mb)];
      }
      next := PushRemovals(killA, a.id, killB, b.id, arrivals, k);
    }

    method PushRemovals(killA: bool, a: nat, killB: bool, b: nat, arrivals: seq<seq<Message>>, k: nat)
        returns (next: nat)
      requires isRunning
      modifies this`allObjects, this`messages
      ensures allObjects == old(allObjects) && next == k + |Removals(killA, a, killB, b)|
      ensures messages == old(messages) + Weave(Removals(killA, a, killB, b), Later(arrivals, k))
    {
      next := k;
      if killA {
        next := RemoveAfterArrival(a, arrivals, next);
      }
      if killB {
        next := RemoveAfterArrival(b, arrivals, next);
      }
      ghost var first := if killA then [RemoveMessage(a)] else [];
      ghost var second := if killB then [RemoveMessage(b)] else [];
      WeaveTwo(first, second, arrivals, k);
      JoinThree(old(messages), Weave(first, Later(arrivals, k)), Weave(second, Later(arrivals, k + |first|)));
    }

    method RemoveAfterArrival(oid: nat, arrivals: seq<seq<Message>>, k: nat) returns (next: nat)
      requires isRunning
      modifies this`allObjects, this`messages
      ensures allObjects == old(allObjects) && next == k + 1
      ensures messages == old(messages) + Weave([RemoveMessage(oid)], Later(arrivals, k))
    {
      Arrive(arrivals, k);
      RemoveObj(oid);
      OneArrived(Later(arrivals, k));
      next := k + 1;
    }
  }

  lemma WeaveGrows(base: seq<Message>, own: seq<Message>, more: seq<Message>, groups: seq<seq<Message>>)
    ensures base + Weave(own, groups) + Weave(more, Later(groups, |own|)) == base + Weave(own + more, groups)
  {
    WeaveAppend(own, more, groups);
    JoinThree(base, Weave(own, groups), Weave(more, Later(groups, |own|)));
  }

  lemma WeaveTwo(a: seq<Message>, b: seq<Message>, groups: seq<seq<Message>>, k: nat)
    ensures Weave(a + b, Later(groups, k)) == Weave(a, Later(groups, k)) + Weave(b, Later(groups, k + |a|))
  {
    WeaveAppend(a, b, Later(groups, k));
    assert Later(Later(groups, k), |a|) == Later(groups, k + |a|);
  }

  /** The keys in the order of a `std::map`'s iterators. */
  method SortedIds(keys: set<nat>) returns (ids: seq<nat>)
    ensures Ascending(ids) && forall i :: i in ids <==> i in keys
  {
    ids := [];
    var rest := keys;
    while rest != {}
      invariant Ascending(ids) && rest <= keys
      invariant forall i :: i in ids <==> i in keys - rest
      invariant forall j :: j in rest ==> AllBelow(ids, j)
      decreases rest
    {
      HasLeast(rest);
      var m :| m in rest && IsLeast(rest, m);
      AppendLeast(ids, m, rest);
      ids := ids + [m];
      rest := rest - {m};
    }
  }

  ghost predicate AllBelow(ids: seq<nat>, j: nat) {
    forall k :: 0 <= k < |ids| ==> ids[k] < j
  }

  lemma AppendLeast(ids: seq<nat>, m: nat, rest: set<nat>)
    requires Ascending(ids) && m in rest && forall j :: j in rest ==> AllBelow(ids, j) && m <= j
    ensures Ascending(ids + [m]) && forall j :: j in rest - {m} ==> AllBelow(ids + [m], j)
    ensures forall i :: i in ids + [m] <==> i in ids || i == m
  {
  }

  predicate IsLeast(s: set<nat>, m: nat) { m in s && forall i :: i in s ==> m <= i }

  lemma {:induction false} HasLeast(s: set<nat>)
    requires s != {}
    ensures exists m :: IsLeast(s, m)
    decreases |s|
  {
    var x :| x in s;
    var rest := s - {x};
    if rest == {} {
      assert forall i :: i in s ==> i == x || i in rest;
      assert IsLeast(s, x);
    } else {
      HasLeast(rest);
      var m :| IsLeast(rest, m);
      LeastOfTwo(s, x, m);
    }
  }

  lemma LeastOfTwo(s: set<nat>, x: nat, m: nat)
    requires x in s && IsLeast(s - {x}, m)
    ensures exists n :: IsLeast(s, n)
  {
    var least := if x < m then x else m;
    forall i | i in s ensures least <= i {
      assert i == x || i in s - {x};
    }
    assert IsLeast(s, least);
  }

  lemma IdsAreKeys(ids: seq<nat>, objects: Objects)
    requires Enumerates(ids, objects)
    ensures multiset(ids) == multiset(objects.Keys)
  {
    forall i: nat ensures multiset(ids)[i] == multiset(objects.Keys)[i] {
      CountAscending(ids, i);
    }
  }

  lemma {:induction false} CountAscending(ids: seq<nat>, i: nat)
    requires Ascending(ids)
    ensures multiset(ids)[i] == if i in ids then 1 else 0
  {
    if ids != [] {
      var last := |ids| - 1;
      CountAscending(ids[..last], i);
      assert ids == ids[..last] + [ids[last]];
      assert ids[last] !in ids[..last];
    }
  }

  lemma PairsInAnyOrder(ids: seq<nat>, order: seq<(nat, nat)>)
    requires Ascending(ids)
    requires forall x: nat, y: nat :: multiset(order)[(x, y)] == if x < y && x in ids && y in ids then 1 else 0
    ensures multiset(order) == multiset(AllPairs(ids, |ids|))
  {
    forall p: (nat, nat) ensures multiset(order)[p] == multiset(AllPairs(ids, |ids|))[p] {
      EachPairOnce(ids, p.0, p.1);
      assert p == (p.0, p.1);
    }
  }
}
