/** The worker pools of `sim_core` never get stuck: whatever the interleaving,
    some thread can perform its next action without a spurious wakeup. */
module QueueProgress {
  import opened Options
  import opened QueueSystem
  import opened QueueInvariants
  import opened QueueBarrier

  /** One engine thread pushes and joins; every other thread pops, works through
      its packet and reports it.  The queue is never held nor shut down. */
  ghost predicate Pool<J>(s: Sys<J>, e: nat) {
    && e < |s.pc| && 2 <= |s.pc|
    && s.q.ready && !s.q.blocked && s.q.dropped == []
    && (s.pc[e].Idle? || s.pc[e].Joined? || s.pc[e].InPush? || s.pc[e].InJoin?)
    && forall t :: 0 <= t < |s.pc| && t != e ==> IsWorker(s.pc[t])
  }

  predicate IsWorker<J>(p: Pc<J>) {
    p.Idle? || p.InPop? || p.Busy? || p.InDone?
  }

  /** A pusher that has yet to notify, or a worker on its way to test the buffer. */
  predicate IsHand<J>(p: Pc<J>) {
    || (p.InPush? && (p.push.PushStored? || p.push.PushSignal? || p.push.PushNotify?))
    || (p.InPop? && (p.pop.PopStart? || p.pop.PopTest? || p.pop.PopWoken? || p.pop.PopTake?))
  }

  ghost function Hand<J>(p: Pc<J>): nat { One(IsHand(p)) }

  ghost predicate NoneParked<J>(pc: seq<Pc<J>>) {
    forall t :: 0 <= t < |pc| ==> pc[t] != InPop(PopParked)
  }

  /** While a worker is parked, there is a hand for every buffered item. */
  ghost predicate HandInv<J>(s: Sys<J>) {
    && (NoneParked(s.pc) || |s.q.buffer| <= Sum(s.pc, Hand))
    && (forall t :: 0 <= t < |s.pc| && s.pc[t] == InPop(PopSleep) ==> s.q.buffer == [])
  }

  lemma HandAct<J>(q: Queue<J>, p: Pc<J>, e: Event<J>)
    requires Possible(q, p, e) && q.ready && !q.blocked && !e.Notify?
    ensures var (q', p') := Act(q, p, e);
            && (|q'.buffer| + Hand(p) <= |q.buffer| + Hand(p') || q'.buffer == [] || p == InPush(PushNotify)
                || q'.blocked || !q'.ready)
            && (p' == InPop(PopSleep) ==> q'.buffer == [])
            && (p' == InPop(PopParked) ==> p == InPop(PopSleep) && q'.buffer == q.buffer)
  {
  }

  lemma HandNotify<J(!new)>(s: Sys<J>, e: Event<J>)
    requires Enabled(s, e) && e.Notify?
    ensures Next(s, e).q == s.q && Sum(Next(s, e).pc, Hand) == Sum(s.pc, Hand)
    ensures forall t :: 0 <= t < |s.pc| && Next(s, e).pc[t] == InPop(PopSleep) ==> s.pc[t] == InPop(PopSleep)
  {
    assert Next(s, e).pc == s.pc[e.t := Idle][e.w := InPop(PopWoken)];
    SumUpdate(s.pc, e.t, Idle, Hand);
    SumUpdate(s.pc[e.t := Idle], e.w, InPop(PopWoken), Hand);
  }

  lemma HandStep<J(!new)>(s: Sys<J>, ev: Event<J>, e: nat)
    requires QueueInv(s) && HandInv(s) && Enabled(s, ev) && Pool(s, e) && Pool(Next(s, ev), e)
    ensures HandInv(Next(s, ev))
  {
    if ev.Notify? {
      HandNotify(s, ev);
    } else {
      SleepersSeeNothing(s, ev, e);
      if !NoneParked(Next(s, ev).pc) && Next(s, ev).q.buffer != [] {
        HandsSuffice(s, ev, e);
      }
    }
  }

  /** Without a release or a shutdown, only notify_one wakes a worker. */
  lemma OthersStay<J(!new)>(s: Sys<J>, ev: Event<J>, e: nat)
    requires Enabled(s, ev) && Pool(s, e) && !ev.Notify?
    ensures forall i :: 0 <= i < |s.pc| && i != ev.t ==> IsHand(Next(s, ev).pc[i]) == IsHand(s.pc[i])
    ensures forall i :: 0 <= i < |s.pc| && i != ev.t && Next(s, ev).pc[i].InPop? ==> Next(s, ev).pc[i] == s.pc[i]
  {
    assert IsWorker(s.pc[ev.t]) || ev.t == e;
  }

  lemma HandsSuffice<J(!new)>(s: Sys<J>, ev: Event<J>, e: nat)
    requires QueueInv(s) && HandInv(s) && Enabled(s, ev) && Pool(s, e) && Pool(Next(s, ev), e) && !ev.Notify?
    requires !NoneParked(Next(s, ev).pc) && Next(s, ev).q.buffer != []
    ensures |Next(s, ev).q.buffer| <= Sum(Next(s, ev).pc, Hand)
  {
    var s' := Next(s, ev);
    NextParts(s, ev);
    OthersStay(s, ev, e);
    HandAct(s.q, s.pc[ev.t], ev);
    SumMoveSeen(s, s', ev.t, Hand);
    var k :| 0 <= k < |s'.pc| && s'.pc[k] == InPop(PopParked);
    assert k != ev.t;
    assert s.pc[k] == InPop(PopParked);
  }

  /** A worker that has decided to sleep holds `mylock`, so the buffer stays empty. */
  lemma SleepersSeeNothing<J(!new)>(s: Sys<J>, ev: Event<J>, e: nat)
    requires QueueInv(s) && HandInv(s) && Enabled(s, ev) && Pool(s, e) && !ev.Notify?
    ensures forall t :: 0 <= t < |s.pc| && Next(s, ev).pc[t] == InPop(PopSleep) ==> Next(s, ev).q.buffer == []
  {
    var s' := Next(s, ev);
    NextParts(s, ev);
    OthersStay(s, ev, e);
    GuardAct(s.q, s.pc[ev.t], ev);
    HandAct(s.q, s.pc[ev.t], ev);
    forall t | 0 <= t < |s.pc| && s'.pc[t] == InPop(PopSleep)
      ensures s'.q.buffer == []
    {
      if t != ev.t {
        assert s.pc[t] == InPop(PopSleep);
        assert HoldsMy(s.pc[t]) && s.q.mylock == Some(t);
        assert HoldsMy(s.pc[ev.t]) <==> s.q.mylock == Some(ev.t);
      }
    }
  }

  /** The thread may stand here in a pool. */
  predicate Belongs<J>(p: Pc<J>, isEngine: bool) {
    if isEngine then p.Idle? || p.Joined? || p.InPush? || p.InJoin? else IsWorker(p)
  }

  /** Thread t can perform an action of its own that keeps the pool a pool, spurious
      wakeups excluded. */
  ghost predicate CanAct<J(!new)>(s: Sys<J>, e: nat, t: nat) {
    exists ev :: Enabled(s, ev) && ev.t == t && !ev.Spurious? && Pool(Next(s, ev), e)
  }

  predicate Parked<J>(p: Pc<J>) { p == InPop(PopParked) || p == InJoin(JoinParked) }

  /** What the threads of a pool do. */
  predicate Customary<J>(p: Pc<J>, ev: Event<J>, isEngine: bool) {
    match ev
    case Call(_, op) => if isEngine then op.Join? else op.Pop?
    case Go(_) | Swap(_) | Notify(_, _) | Work(_) | Finish(_) => true
    case _ => false
  }

  lemma CustomaryAct<J>(q: Queue<J>, p: Pc<J>, ev: Event<J>, isEngine: bool)
    requires Possible(q, p, ev) && q.ready && !q.blocked && Belongs(p, isEngine) && Customary(p, ev, isEngine)
    ensures var (q', p') := Act(q, p, ev);
            q'.ready && !q'.blocked && q'.dropped == q.dropped && Belongs(p', isEngine)
  {
  }

  lemma CustomaryStep<J(!new)>(s: Sys<J>, ev: Event<J>, e: nat)
    requires Enabled(s, ev) && Pool(s, e) && Customary(s.pc[ev.t], ev, ev.t == e)
    ensures Pool(Next(s, ev), e)
  {
    NextParts(s, ev);
    assert Belongs(s.pc[ev.t], ev.t == e);
    CustomaryAct(s.q, s.pc[ev.t], ev, ev.t == e);
    forall t | 0 <= t < |s.pc| ensures Belongs(Next(s, ev).pc[t], t == e) {
      assert Belongs(s.pc[t], t == e);
    }
  }

  /** A thread that is not parked can act, unless it needs a lock somebody holds. */
  lemma RunnableEvent<J(!new)>(s: Sys<J>, e: nat, t: nat) returns (ev: Event<J>)
    requires QueueInv(s) && Pool(s, e) && t < |s.pc| && !Parked(s.pc[t])
    requires HoldsMy(s.pc[t]) || HoldsJoin(s.pc[t]) || (s.q.mylock.None? && s.q.joinlock.None?)
    ensures Enabled(s, ev) && ev.t == t && Customary(s.pc[t], ev, t == e)
  {
    var p := s.pc[t];
    assert FifoAt(s.q, p);
    if p.Idle? || p.Joined? {
      ev := Call(t, if t == e then Join else Pop);
    } else if p.Busy? {
      ev := if p.next == |p.item| then Finish(t) else Work(t);
    } else if p == InPush(PushNotify) && !NoneParked(s.pc) {
      var w :| 0 <= w < |s.pc| && s.pc[w] == InPop(PopParked);
      ev := Notify(t, w);
    } else {
      ev := Go(t);
    }
  }

  /** With every thread parked, nothing would be outstanding. */
  lemma ParkedMeansSettled<J(!new)>(s: Sys<J>, e: nat)
    requires QueueInv(s) && HandInv(s) && Pool(s, e) && forall t :: 0 <= t < |s.pc| ==> Parked(s.pc[t])
    ensures Settled(s.q) && Waiting(s.q, s.pc[e])
  {
    ParkedMeansEmpty(s, e);
    SumZero(s.pc, Counted);
    SumZero(s.pc, Held);
  }

  lemma ParkedMeansEmpty<J(!new)>(s: Sys<J>, e: nat)
    requires HandInv(s) && Pool(s, e) && forall t :: 0 <= t < |s.pc| ==> Parked(s.pc[t])
    ensures s.q.buffer == [] && s.pc[e] == InJoin(JoinParked)
  {
    var other := if e == 0 then 1 else 0;
    assert IsWorker(s.pc[other]) && s.pc[other] == InPop(PopParked);
    SumZero(s.pc, Hand);
  }

  lemma SomebodyAwake<J(!new)>(s: Sys<J>, e: nat)
    requires QueueInv(s) && WakeInv(s) && HandInv(s) && Pool(s, e)
    ensures exists t :: 0 <= t < |s.pc| && !Parked(s.pc[t])
  {
    if forall t :: 0 <= t < |s.pc| ==> Parked(s.pc[t]) {
      ParkedMeansSettled(s, e);
      assert false;
    }
  }

  lemma SomebodyCanAct<J(!new)>(s: Sys<J>, e: nat) returns (ev: Event<J>)
    requires QueueInv(s) && WakeInv(s) && HandInv(s) && Pool(s, e)
    ensures Enabled(s, ev) && Customary(s.pc[ev.t], ev, ev.t == e) && Pool(Next(s, ev), e)
  {
    if s.q.mylock.Some? {
      var h := s.q.mylock.value;
      assert HoldsMy(s.pc[h]) <==> s.q.mylock == Some(h);
      ev := RunnableEvent(s, e, h);
    } else if s.q.joinlock.Some? {
      var h := s.q.joinlock.value;
      assert HoldsJoin(s.pc[h]) <==> s.q.joinlock == Some(h);
      ev := RunnableEvent(s, e, h);
    } else {
      SomebodyAwake(s, e);
      var t :| 0 <= t < |s.pc| && !Parked(s.pc[t]);
      ev := RunnableEvent(s, e, t);
    }
    CustomaryStep(s, ev, e);
  }

  lemma {:induction false} PoolRun<J(!new)>(s: Sys<J>, events: seq<Event<J>>, ok: Sys<J> -> bool, e: nat)
    requires QueueInv(s) && WakeInv(s) && HandInv(s) && Legal(s, events, ok)
    requires forall x :: ok(x) ==> Bounded(x) && Pool(x, e)
    ensures var s' := After(s, events, ok); QueueInv(s') && WakeInv(s') && HandInv(s') && Pool(s', e)
    decreases |events|
  {
    if events != [] {
      assert ok(s) && ok(Next(s, events[0]));
      QueueStep(s, events[0]);
      WakeStep(s, events[0]);
      HandStep(s, events[0], e);
      PoolRun(Next(s, events[0]), events[1..], ok, e);
    }
  }

  /** A pool of one engine and at least one worker is never stuck: in every
      reachable state some thread can perform an action that keeps the pool a pool,
      without a spurious wakeup. */
  lemma NeverStuck<J(!new)>(threads: nat, events: seq<Event<J>>, ok: Sys<J> -> bool, e: nat)
    requires Legal(Init(threads), events, ok)
    requires forall x :: ok(x) ==> Bounded(x) && Pool(x, e)
    ensures exists t :: CanAct(After(Init(threads), events, ok), e, t)
  {
    PoolFromStart(threads, events, ok, e);
    var ev := SomebodyCanAct(After(Init(threads), events, ok), e);
    assert CanAct(After(Init(threads), events, ok), e, ev.t);
  }

  lemma PoolFromStart<J(!new)>(threads: nat, events: seq<Event<J>>, ok: Sys<J> -> bool, e: nat)
    requires Legal(Init(threads), events, ok)
    requires forall x :: ok(x) ==> Bounded(x) && Pool(x, e)
    ensures var s := After(Init(threads), events, ok); QueueInv(s) && WakeInv(s) && HandInv(s) && Pool(s, e)
  {
    QueueInit<J>(threads);
    PoolRun(Init(threads), events, ok, e);
  }
}
