/** `join` comes back: once the engine of a worker pool has called it, every run
    without spurious wakeups is finite and can only end with its return. */
module QueueReturn {
  import opened QueueSystem
  import opened QueueInvariants
  import opened QueueBarrier
  import opened QueueProgress

  /** The engine is inside `join`, so nobody pushes. */
  ghost predicate Joining<J>(s: Sys<J>, e: nat) { Pool(s, e) && s.pc[e].InJoin? }

  /** The engine is still inside `join`, or has just returned from it. */
  ghost predicate JoiningOrBack<J>(s: Sys<J>, e: nat) { Pool(s, e) && (s.pc[e].InJoin? || s.pc[e].Joined?) }

  /** The actions that a thread has left before it parks or returns, where a worker
      that is about to notify pays for the joiner's second look at the counters. */
  ghost function Weight<J>(p: Pc<J>): nat {
    match p
    case Idle => 4
    case Busy(item, next) => 15 + if next <= |item| then |item| - next else 0
    case InPop(c) => PopWeight(c)
    case InJoin(c) => JoinWeight(c)
    case InDone(c) => DoneWeight(c)
    case _ => 0
  }

  ghost function PopWeight<J>(c: PopPc<J>): nat {
    match c
    case PopParked => 0
    case PopSleep | PopTake => 1
    case PopTest => 2
    case PopStart | PopWoken => 3
    case PopFail => 5
    case PopLeave(item) => 16 + |item|
    case PopCount(item) => 17 + |item|
  }

  ghost function JoinWeight(c: JoinPc): nat {
    match c
    case JoinParked => 0
    case JoinSleep | JoinLeave => 1
    case JoinSawDone(_) | JoinSawIn(_) => 2
    case JoinTest => 3
    case JoinStart | JoinWoken => 4
  }

  ghost function DoneWeight(c: DonePc): nat {
    match c
    case DoneLeave => 5
    case DoneNotify => 10
    case DoneLock => 11
    case DoneSawDone(_) | DoneSawIn(_) => 12
    case DoneTest => 13
    case DoneStart => 14
  }

  ghost function BufferWeight<J>(buffer: seq<seq<J>>): nat {
    if buffer == [] then 0 else 17 + |buffer[0]| + BufferWeight(buffer[1..])
  }

  ghost function Measure<J>(s: Sys<J>): nat { Sum(s.pc, Weight) + BufferWeight(s.q.buffer) }

  /** The acting thread pays for its action, and 4 more if it wakes the joiner. */
  lemma MeasureAct<J>(q: Queue<J>, p: Pc<J>, ev: Event<J>)
    requires Possible(q, p, ev) && !ev.Spurious? && q.ready && !q.blocked && (IsWorker(p) || p.InJoin?)
    requires var (q', p') := Act(q, p, ev);
             && q'.ready && !q'.blocked && q'.dropped == q.dropped
             && if p.InJoin? then p'.InJoin? || p'.Joined? else IsWorker(p')
    ensures var (q', p') := Act(q, p, ev);
            Weight(p') + BufferWeight(q'.buffer) + (if p == InDone(DoneNotify) then 4 else 0)
            < Weight(p) + BufferWeight(q.buffer)
  {
  }

  /** Of the other threads only the joiner can move, and only when it is woken. */
  lemma OnlyJoinerWakes<J(!new)>(s: Sys<J>, ev: Event<J>, e: nat)
    requires Enabled(s, ev) && Joining(s, e)
    ensures var s', one := Next(s, ev), s.pc[ev.t := Next(s, ev).pc[ev.t]];
            s'.pc == one ||
            (s.pc[ev.t] == InDone(DoneNotify) && ev.t != e && s.pc[e] == InJoin(JoinParked) &&
             s'.pc == one[e := InJoin(JoinWoken)])
  {
    assert IsWorker(s.pc[ev.t]) || ev.t == e;
    assert forall t :: 0 <= t < |s.pc| && t != e ==> IsWorker(s.pc[t]);
  }

  lemma WeightsMove<J(!new)>(s: Sys<J>, ev: Event<J>, e: nat)
    requires Enabled(s, ev) && Joining(s, e)
    ensures Sum(Next(s, ev).pc, Weight) <= Sum(s.pc, Weight) - Weight(s.pc[ev.t]) + Weight(Next(s, ev).pc[ev.t])
                                           + if s.pc[ev.t] == InDone(DoneNotify) then 4 else 0
  {
    OnlyJoinerWakes(s, ev, e);
    WeightsUpdate(s.pc, ev.t, Next(s, ev).pc[ev.t], e, Next(s, ev).pc);
  }

  lemma WeightsUpdate<J(!new)>(pc: seq<Pc<J>>, t: nat, p': Pc<J>, e: nat, pc': seq<Pc<J>>)
    requires t < |pc| && e < |pc|
    requires pc' == pc[t := p'] ||
             (pc[t] == InDone(DoneNotify) && t != e && pc[e] == InJoin(JoinParked) &&
              pc' == pc[t := p'][e := InJoin(JoinWoken)])
    ensures Sum(pc', Weight) <= Sum(pc, Weight) - Weight(pc[t]) + Weight(p')
                                + if pc[t] == InDone(DoneNotify) then 4 else 0
  {
    SumUpdate(pc, t, p', Weight);
    SumUpdate(pc[t := p'], e, InJoin(JoinWoken), Weight);
  }

  /** Every event but a spurious wakeup makes the measure smaller. */
  lemma MeasureStep<J(!new)>(s: Sys<J>, ev: Event<J>, e: nat)
    requires Enabled(s, ev) && !ev.Spurious? && Joining(s, e) && JoiningOrBack(Next(s, ev), e)
    ensures Measure(Next(s, ev)) < Measure(s)
  {
    NextParts(s, ev);
    assert IsWorker(s.pc[ev.t]) || ev.t == e;
    assert IsWorker(Next(s, ev).pc[ev.t]) || ev.t == e;
    MeasureAct(s.q, s.pc[ev.t], ev);
    WeightsMove(s, ev, e);
  }

  /** Unless the joiner is back, the run can go on towards its return. */
  ghost predicate CanGoOn<J(!new)>(s: Sys<J>, e: nat) {
    exists ev :: Enabled(s, ev) && !ev.Spurious? && JoiningOrBack(Next(s, ev), e) && Bounded(Next(s, ev))
  }

  lemma GoesOn<J(!new)>(s: Sys<J>, e: nat) returns (ev: Event<J>)
    requires QueueInv(s) && WakeInv(s) && HandInv(s) && Joining(s, e) && Bounded(s)
    ensures Enabled(s, ev) && !ev.Spurious? && JoiningOrBack(Next(s, ev), e) && Bounded(Next(s, ev))
  {
    ev := SomebodyCanAct(s, e);
    NextParts(s, ev);
    assert IsWorker(s.pc[ev.t]) || ev.t == e;
    ProducerAct(s.q, s.pc[ev.t], ev);
    if ev.t == e {
      StaysInJoin(s.q, s.pc[e], ev);
    }
  }

  lemma StaysInJoin<J>(q: Queue<J>, p: Pc<J>, ev: Event<J>)
    requires Possible(q, p, ev) && p.InJoin?
    ensures Act(q, p, ev).1.InJoin? || Act(q, p, ev).1.Joined?
  {
  }

  ghost predicate NoneSpurious<J>(events: seq<Event<J>>) {
    forall k :: 0 <= k < |events| ==> !events[k].Spurious?
  }

  lemma {:induction false} JoiningRun<J(!new)>(s: Sys<J>, events: seq<Event<J>>, ok: Sys<J> -> bool, e: nat)
    requires QueueInv(s) && WakeInv(s) && HandInv(s) && Legal(s, events, ok) && NoneSpurious(events)
    requires forall x :: ok(x) ==> Bounded(x) && Joining(x, e)
    ensures var s' := After(s, events, ok);
            && QueueInv(s') && WakeInv(s') && HandInv(s') && Joining(s', e) && Bounded(s')
            && |events| + Measure(s') <= Measure(s)
    decreases |events|
  {
    assert ok(s);
    if events != [] {
      var s' := Next(s, events[0]);
      assert ok(s');
      QueueStep(s, events[0]);
      WakeStep(s, events[0]);
      HandStep(s, events[0], e);
      MeasureStep(s, events[0], e);
      JoiningRun(s', events[1..], ok, e);
    }
  }

  /** `join` comes back.  From every reachable state s of a pool whose engine is in
      `join`, a run without spurious wakeups in which it stays there has at most
      Measure(s) events, and can always go on: so every such run that is not cut
      short ends with the engine's return. */
  lemma JoinComesBack<J(!new)>(
      threads: nat, before: seq<Event<J>>, pool: Sys<J> -> bool, events: seq<Event<J>>, joining: Sys<J> -> bool, e: nat)
    requires Legal(Init(threads), before, pool) && forall x :: pool(x) ==> Bounded(x) && Pool(x, e)
    requires Legal(After(Init(threads), before, pool), events, joining) && NoneSpurious(events)
    requires forall x :: joining(x) ==> Bounded(x) && Joining(x, e)
    ensures var s := After(Init(threads), before, pool);
            |events| <= Measure(s) && CanGoOn(After(s, events, joining), e)
  {
    var s := After(Init(threads), before, pool);
    PoolFromStart(threads, before, pool, e);
    JoiningRun(s, events, joining, e);
    var ev := GoesOn(After(s, events, joining), e);
  }

  /** One such run, to the return. */
  lemma {:induction false} RunToReturn<J(!new)>(s: Sys<J>, e: nat, ok: Sys<J> -> bool) returns (events: seq<Event<J>>)
    requires QueueInv(s) && WakeInv(s) && HandInv(s) && Joining(s, e) && Bounded(s)
    requires forall x :: JoiningOrBack(x, e) && Bounded(x) ==> ok(x)
    ensures Legal(s, events, ok) && After(s, events, ok).pc[e].Joined?
    decreases Measure(s)
  {
    var ev := GoesOn(s, e);
    var s' := Next(s, ev);
    if s'.pc[e].Joined? {
      RunFrom(s, ev, [], ok);
      events := [ev] + [];
    } else {
      QueueStep(s, ev);
      WakeStep(s, ev);
      HandStep(s, ev, e);
      MeasureStep(s, ev, e);
      var rest := RunToReturn(s', e, ok);
      RunFrom(s, ev, rest, ok);
      events := [ev] + rest;
    }
  }
}
