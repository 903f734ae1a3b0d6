/** What a shutdown does for the threads that wait in `pop`: it wakes every one of
    them, and every call of `pop` comes back refused. */
module QueueShutdown {
  import opened Options
  import opened QueueSystem
  import opened QueueInvariants

  // ----- who is where once the queue is shut down -----

  /** A `pop` that has seen the queue ready: about to park, or with an item. */
  predicate SawReady<J>(p: Pc<J>) {
    p.InPop? && (p.pop.PopSleep? || p.pop.PopTake? || p.pop.PopCount? || p.pop.PopLeave?)
  }

  /** A shutdown that has cleared `ready` and not yet notified. */
  predicate IsShutting<J>(p: Pc<J>) { p == InShut(ShutDrain) || p == InShut(ShutNotify) }

  /** A shutdown that has emptied the buffer and still holds the lock. */
  predicate HasDrained<J>(p: Pc<J>) { p == InShut(ShutNotify) || p == InShut(ShutLeave) }

  ghost predicate ShutInv<J>(s: Sys<J>) {
    && (forall t :: 0 <= t < |s.pc| && !s.q.ready ==> !SawReady(s.pc[t]))
    && (forall t :: 0 <= t < |s.pc| && !s.q.ready && s.pc[t] == InPop(PopParked) ==>
          exists w :: 0 <= w < |s.pc| && IsShutting(s.pc[w]))
    && (forall t :: 0 <= t < |s.pc| && (IsShutting(s.pc[t]) || HasDrained(s.pc[t])) ==> !s.q.ready)
    && (forall t :: 0 <= t < |s.pc| && HasDrained(s.pc[t]) ==> s.q.buffer == [])
  }

  lemma PopsAct<J>(q: Queue<J>, p: Pc<J>, e: Event<J>)
    requires Possible(q, p, e)
    ensures var (q', p') := Act(q, p, e);
            && (SawReady(p') ==> q.ready || SawReady(p))
            && (p' == InPop(PopParked) ==> p == InPop(PopSleep))
            && (q'.buffer == q.buffer || HoldsMy(p))
  {
  }

  lemma ShutsAct<J>(q: Queue<J>, p: Pc<J>, e: Event<J>)
    requires Possible(q, p, e)
    ensures var (q', p') := Act(q, p, e);
            && (q'.ready ==> q.ready)
            && (q.ready && !q'.ready ==> p' == InShut(ShutDrain) && HoldsMy(p))
            && (IsShutting(p) ==> IsShutting(p') || (p == InShut(ShutNotify) && e.Go?))
  {
  }

  lemma DrainsAct<J>(q: Queue<J>, p: Pc<J>, e: Event<J>)
    requires Possible(q, p, e)
    ensures var (q', p') := Act(q, p, e);
            && (IsShutting(p') || HasDrained(p') ==> !q'.ready || IsShutting(p) || HasDrained(p))
            && (HasDrained(p') ==> q'.buffer == [] || HasDrained(p))
  {
  }

  lemma ShutAct<J>(q: Queue<J>, p: Pc<J>, e: Event<J>)
    requires Possible(q, p, e)
    ensures var (q', p') := Act(q, p, e);
            && (q'.ready ==> q.ready)
            && (q.ready && !q'.ready ==> p' == InShut(ShutDrain) && HoldsMy(p))
            && (SawReady(p') ==> q.ready || SawReady(p))
            && (p' == InPop(PopParked) ==> p == InPop(PopSleep))
            && (IsShutting(p) ==> IsShutting(p') || (p == InShut(ShutNotify) && e.Go?))
            && (IsShutting(p') || HasDrained(p') ==> !q'.ready || IsShutting(p) || HasDrained(p))
            && (HasDrained(p') ==> q'.buffer == [] || HasDrained(p))
            && (q'.buffer == q.buffer || HoldsMy(p))
  {
    PopsAct(q, p, e);
    ShutsAct(q, p, e);
    DrainsAct(q, p, e);
  }

  /** A notify_all of `release` or `shutdown` leaves nobody parked in `pop`. */
  lemma NotifyAllWakesAll<J(!new)>(s: Sys<J>, e: Event<J>)
    requires Enabled(s, e) && e.Go? && (s.pc[e.t].InRelease? || s.pc[e.t] == InShut(ShutNotify))
    ensures forall t :: 0 <= t < |s.pc| ==> Next(s, e).pc[t] != InPop(PopParked)
    ensures forall t :: 0 <= t < |s.pc| && s.pc[t] == InPop(PopParked) ==> Next(s, e).pc[t] == InPop(PopWoken)
  {
  }

  lemma ReadyStep<J(!new)>(s: Sys<J>, e: Event<J>)
    requires LockInv(s) && ShutInv(s) && Enabled(s, e) && !Next(s, e).q.ready
    ensures forall t :: 0 <= t < |s.pc| ==> !SawReady(Next(s, e).pc[t])
  {
    NextParts(s, e);
    ShutAct(s.q, s.pc[e.t], e);
    assert HoldsMy(s.pc[e.t]) <==> s.q.mylock == Some(e.t);
    forall t | 0 <= t < |s.pc| ensures !SawReady(Next(s, e).pc[t]) {
      assert HoldsMy(s.pc[t]) <==> s.q.mylock == Some(t);
      if t != e.t {
        assert StaysOrWakes(s.pc[t], Next(s, e).pc[t]);
      }
    }
  }

  lemma ParkedStep<J(!new)>(s: Sys<J>, e: Event<J>, t: nat)
    requires LockInv(s) && ShutInv(s) && Enabled(s, e) && !Next(s, e).q.ready
    requires t < |s.pc| && Next(s, e).pc[t] == InPop(PopParked)
    ensures exists w :: 0 <= w < |s.pc| && IsShutting(Next(s, e).pc[w])
  {
    var s' := Next(s, e);
    NextParts(s, e);
    ShutAct(s.q, s.pc[e.t], e);
    if s.q.ready {
      assert IsShutting(s'.pc[e.t]);
    } else {
      assert t != e.t ==> StaysOrWakes(s.pc[t], s'.pc[t]);
      assert s.pc[t] == InPop(PopParked);
      var w :| 0 <= w < |s.pc| && IsShutting(s.pc[w]);
      if w == e.t && s.pc[w] == InShut(ShutNotify) && e.Go? {
        NotifyAllWakesAll(s, e);
        assert false;
      }
      assert w != e.t ==> StaysOrWakes(s.pc[w], s'.pc[w]);
      assert IsShutting(s'.pc[w]);
    }
  }

  lemma DrainedStep<J(!new)>(s: Sys<J>, e: Event<J>)
    requires LockInv(s) && ShutInv(s) && Enabled(s, e)
    ensures var s' := Next(s, e);
      && (forall t :: 0 <= t < |s.pc| && (IsShutting(s'.pc[t]) || HasDrained(s'.pc[t])) ==> !s'.q.ready)
      && (forall t :: 0 <= t < |s.pc| && HasDrained(s'.pc[t]) ==> s'.q.buffer == [])
  {
    var s' := Next(s, e);
    NextParts(s, e);
    ShutAct(s.q, s.pc[e.t], e);
    assert HoldsMy(s.pc[e.t]) <==> s.q.mylock == Some(e.t);
    forall t | 0 <= t < |s.pc|
      ensures IsShutting(s'.pc[t]) || HasDrained(s'.pc[t]) ==> !s'.q.ready
      ensures HasDrained(s'.pc[t]) ==> s'.q.buffer == []
    {
      assert HoldsMy(s.pc[t]) <==> s.q.mylock == Some(t);
      if t != e.t {
        assert StaysOrWakes(s.pc[t], s'.pc[t]);
      }
    }
  }

  lemma ShutStep<J(!new)>(s: Sys<J>, e: Event<J>)
    requires QueueInv(s) && ShutInv(s) && Enabled(s, e)
    ensures ShutInv(Next(s, e))
  {
    var s' := Next(s, e);
    if !s'.q.ready {
      ReadyStep(s, e);
      forall t | 0 <= t < |s.pc| && s'.pc[t] == InPop(PopParked)
        ensures exists w :: 0 <= w < |s'.pc| && IsShutting(s'.pc[w])
      {
        ParkedStep(s, e, t);
      }
    }
    DrainedStep(s, e);
  }

  lemma {:induction false} ShutRun<J(!new)>(s: Sys<J>, events: seq<Event<J>>, ok: Sys<J> -> bool)
    requires QueueInv(s) && ShutInv(s) && Legal(s, events, ok)
    ensures QueueInv(After(s, events, ok)) && ShutInv(After(s, events, ok))
    decreases |events|
  {
    if events != [] {
      QueueStep(s, events[0]);
      ShutStep(s, events[0]);
      ShutRun(Next(s, events[0]), events[1..], ok);
    }
  }

  lemma ShutFromStart<J(!new)>(threads: nat, events: seq<Event<J>>, ok: Sys<J> -> bool)
    requires Legal(Init(threads), events, ok)
    ensures QueueInv(After(Init(threads), events, ok)) && ShutInv(After(Init(threads), events, ok))
  {
    QueueInit<J>(threads);
    ShutRun(Init(threads), events, ok);
  }

  /** For any number of threads and any interleaving: once the queue is not ready,
      nobody is about to park or holds an item that `pop` has yet to return; when no
      shutdown is between clearing `ready` and its notification, nobody is parked; and
      a shutdown about to return leaves the buffer empty. */
  lemma ShutdownReleases<J(!new)>(threads: nat, events: seq<Event<J>>, ok: Sys<J> -> bool)
    requires Legal(Init(threads), events, ok)
    ensures var s := After(Init(threads), events, ok);
      && (forall t :: 0 <= t < |s.pc| && !s.q.ready ==> !SawReady(s.pc[t]))
      && (!s.q.ready && (forall t :: 0 <= t < |s.pc| ==> !IsShutting(s.pc[t])) ==>
            forall t :: 0 <= t < |s.pc| ==> s.pc[t] != InPop(PopParked))
      && (forall t :: 0 <= t < |s.pc| && s.pc[t] == InShut(ShutLeave) ==> s.q.buffer == [])
  {
    ShutFromStart(threads, events, ok);
  }

  // ----- every pop comes back -----

  /** The thread is inside `push`, `pop`, `release` or `shutdown`. */
  predicate IsInside<J>(p: Pc<J>) { p.InPush? || p.InPop? || p.InRelease? || p.InShut? }

  /** The actions the thread has left before it returns, once the queue is shut down. */
  ghost function Weight<J>(p: Pc<J>): nat {
    match p
    case InPush(c) => PushWeight(c)
    case InPop(c) => PopWeight(c)
    case InRelease(andThen) => if andThen.Some? then 8 else 1
    case InShut(c) => ShutWeight(c)
    case _ => 0
  }

  ghost function PushWeight<J>(c: PushPc<J>): nat {
    match c
    case PushStart(_) => 7
    case PushReady(_) => 6
    case PushCounted(_) => 5
    case PushLocked(_) => 4
    case PushStored => 3
    case PushSignal => 2
    case PushNotify => 1
  }

  ghost function PopWeight<J>(c: PopPc<J>): nat {
    match c
    case PopParked => 4
    case PopStart | PopWoken => 3
    case PopTest => 2
    case PopFail => 1
    case _ => 0
  }

  ghost function ShutWeight(c: ShutPc): nat {
    match c
    case ShutStart => 5
    case ShutLocked => 4
    case ShutDrain => 3
    case ShutNotify => 2
    case ShutLeave => 1
  }

  /** An action of a thread that is inside makes its weight smaller; a call adds 8 at
      most; what threads do elsewhere adds nothing. */
  lemma WeightAct<J>(q: Queue<J>, p: Pc<J>, e: Event<J>)
    requires Possible(q, p, e) && !q.ready && !SawReady(p)
    ensures var p' := Act(q, p, e).1;
            && (IsInside(p) ==> Weight(p') < Weight(p))
            && (e.Call? ==> Weight(p) == 0 && Weight(p') <= 8)
            && (!IsInside(p) && !e.Call? ==> Weight(p') == Weight(p) == 0)
  {
  }

  lemma {:induction false} SumAtMost<J>(pc: seq<Pc<J>>, qc: seq<Pc<J>>, w: Pc<J> -> nat)
    requires |pc| == |qc| && forall i :: 0 <= i < |pc| ==> w(pc[i]) <= w(qc[i])
    ensures Sum(pc, w) <= Sum(qc, w)
    decreases |pc|
  {
    if pc != [] {
      var n := |pc| - 1;
      assert forall i :: 0 <= i < n ==> w(pc[..n][i]) <= w(qc[..n][i]);
      SumAtMost(pc[..n], qc[..n], w);
    }
  }

  lemma WeightsMove<J(!new)>(s: Sys<J>, e: Event<J>)
    requires Enabled(s, e)
    ensures Sum(Next(s, e).pc, Weight) <= Sum(s.pc, Weight) - Weight(s.pc[e.t]) + Weight(Next(s, e).pc[e.t])
  {
    var s' := Next(s, e);
    NextParts(s, e);
    var one := s.pc[e.t := s'.pc[e.t]];
    SumUpdate(s.pc, e.t, s'.pc[e.t], Weight);
    forall i | 0 <= i < |s.pc| ensures Weight(s'.pc[i]) <= Weight(one[i]) {
      assert i != e.t ==> StaysOrWakes(s.pc[i], s'.pc[i]);
    }
    SumAtMost(s'.pc, one, Weight);
  }

  /** The events of threads that are inside when they act, and the calls, of a run. */
  ghost function InsideSteps<J(!new)>(s: Sys<J>, events: seq<Event<J>>, ok: Sys<J> -> bool): nat
    requires Legal(s, events, ok)
    decreases |events|
  {
    if events == [] then 0
    else One(IsInside(s.pc[events[0].t])) + InsideSteps(Next(s, events[0]), events[1..], ok)
  }

  ghost function Calls<J>(events: seq<Event<J>>): nat {
    if events == [] then 0 else One(events[0].Call?) + Calls(events[1..])
  }

  lemma {:induction false} InsideRun<J(!new)>(s: Sys<J>, events: seq<Event<J>>, ok: Sys<J> -> bool)
    requires QueueInv(s) && ShutInv(s) && !s.q.ready && Legal(s, events, ok)
    ensures var s' := After(s, events, ok);
            && QueueInv(s') && ShutInv(s') && !s'.q.ready
            && InsideSteps(s, events, ok) + Sum(s'.pc, Weight) <= Sum(s.pc, Weight) + 8 * Calls(events)
    decreases |events|
  {
    if events != [] {
      var e := events[0];
      QueueStep(s, e);
      ShutStep(s, e);
      NextParts(s, e);
      ShutAct(s.q, s.pc[e.t], e);
      assert !SawReady(s.pc[e.t]);
      WeightAct(s.q, s.pc[e.t], e);
      WeightsMove(s, e);
      InsideRun(Next(s, e), events[1..], ok);
    }
  }

  /** While somebody is inside `pop`, somebody inside the queue can act. */
  lemma SomebodyInsideActs<J(!new)>(s: Sys<J>, t: nat) returns (e: Event<J>)
    requires QueueInv(s) && ShutInv(s) && !s.q.ready && t < |s.pc| && s.pc[t].InPop?
    ensures Enabled(s, e) && !e.Call? && !e.Spurious? && IsInside(s.pc[e.t])
  {
    assert !SawReady(s.pc[t]);
    if s.q.mylock.Some? {
      var h := s.q.mylock.value;
      assert HoldsMy(s.pc[h]) <==> s.q.mylock == Some(h);
      assert !SawReady(s.pc[h]);
      e := Go(h);
    } else {
      assert s.pc[t] != InPop(PopParked) by {
        forall w | 0 <= w < |s.pc| ensures !IsShutting(s.pc[w]) {
          assert HoldsMy(s.pc[w]) <==> s.q.mylock == Some(w);
        }
      }
      assert !HoldsMy(s.pc[t]);
      e := Go(t);
    }
  }

  /** A thread leaves `pop` of a queue that is shut down only by the refusal. */
  lemma PopIsRefused<J(!new)>(s: Sys<J>, e: Event<J>, t: nat)
    requires QueueInv(s) && ShutInv(s) && !s.q.ready && Enabled(s, e) && t < |s.pc|
    requires s.pc[t].InPop? && !Next(s, e).pc[t].InPop?
    ensures e == Go(t) && s.pc[t] == InPop(PopFail) && Next(s, e).pc[t] == Idle
  {
    NextParts(s, e);
    assert !SawReady(s.pc[t]);
  }

  /** After a shutdown every `pop` comes back, refused.  From every reachable state s
      that is not ready, however the threads go on: those inside the queue make at
      most as many steps as their weights and 8 per new call allow, and as long as one
      of them is inside `pop`, one of them can make a step.  So a run that is not cut
      short, with finitely many new calls, leaves nobody waiting. */
  lemma PopsComeBack<J(!new)>(
      threads: nat, before: seq<Event<J>>, events: seq<Event<J>>, ok: Sys<J> -> bool, t: nat)
    requires Legal(Init(threads), before, ok) && !After(Init(threads), before, ok).q.ready
    requires Legal(After(Init(threads), before, ok), events, ok)
    ensures var s := After(Init(threads), before, ok);
      var s' := After(s, events, ok);
      && InsideSteps(s, events, ok) <= Sum(s.pc, Weight) + 8 * Calls(events)
      && (t < |s'.pc| && s'.pc[t].InPop? ==>
            exists e :: Enabled(s', e) && !e.Call? && !e.Spurious? && IsInside(s'.pc[e.t]))
  {
    var s := After(Init(threads), before, ok);
    ShutFromStart(threads, before, ok);
    InsideRun(s, events, ok);
    var s' := After(s, events, ok);
    if t < |s'.pc| && s'.pc[t].InPop? {
      var e := SomebodyInsideActs(s', t);
    }
  }

  ghost predicate NobodyPops<J>(s: Sys<J>) { forall t :: 0 <= t < |s.pc| ==> !s.pc[t].InPop? }

  /** One such run, to a state in which nobody is inside `pop`. */
  lemma {:induction false} RunToRefusal<J(!new)>(s: Sys<J>, ok: Sys<J> -> bool) returns (events: seq<Event<J>>)
    requires QueueInv(s) && ShutInv(s) && !s.q.ready && forall x :: ok(x)
    ensures Legal(s, events, ok) && NobodyPops(After(s, events, ok))
    decreases Sum(s.pc, Weight)
  {
    if NobodyPops(s) {
      events := [];
    } else {
      var t :| 0 <= t < |s.pc| && s.pc[t].InPop?;
      var e := SomebodyInsideActs(s, t);
      QueueStep(s, e);
      ShutStep(s, e);
      NextParts(s, e);
      ShutAct(s.q, s.pc[e.t], e);
      assert !SawReady(s.pc[e.t]);
      WeightAct(s.q, s.pc[e.t], e);
      WeightsMove(s, e);
      var rest := RunToRefusal(Next(s, e), ok);
      RunFrom(s, e, rest, ok);
      events := [e] + rest;
    }
  }
}
